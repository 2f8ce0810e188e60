/** Job identity: a hash of the canonical form of what is to be checked. */
module Idempotency {

  /** Code-point order on strings, as sorted() uses it. */
  predicate Leq(a: string, b: string) {
    |a| == 0 || (|b| > 0 && (a[0] < b[0] || (a[0] == b[0] && Leq(a[1..], b[1..]))))
  }

  lemma {:induction false} LeqTotal(a: string, b: string)
    ensures Leq(a, b) || Leq(b, a)
  {
    if |a| > 0 && |b| > 0 {
      LeqTotal(a[1..], b[1..]);
    }
  }

  lemma {:induction false} LeqAntisymmetric(a: string, b: string)
    requires Leq(a, b) && Leq(b, a)
    ensures a == b
  {
    if |a| > 0 {
      LeqAntisymmetric(a[1..], b[1..]);
      assert a == [a[0]] + a[1..] && b == [b[0]] + b[1..];
    }
  }

  lemma {:induction false} LeqTransitive(a: string, b: string, c: string)
    requires Leq(a, b) && Leq(b, c)
    ensures Leq(a, c)
  {
    if |a| > 0 && a[0] == b[0] == c[0] {
      LeqTransitive(a[1..], b[1..], c[1..]);
    }
  }

  predicate IsSorted(s: seq<string>) {
    forall i :: 0 < i < |s| ==> Leq(s[i - 1], s[i])
  }

  function Insert(x: string, s: seq<string>): seq<string> {
    if |s| == 0 || Leq(x, s[0]) then [x] + s else [s[0]] + Insert(x, s[1..])
  }

  function Sorted(s: seq<string>): seq<string> {
    if |s| == 0 then [] else Insert(s[0], Sorted(s[1..]))
  }

  lemma {:induction false} InsertKeeps(x: string, s: seq<string>)
    requires IsSorted(s)
    ensures IsSorted(Insert(x, s))
    ensures multiset(Insert(x, s)) == multiset(s) + multiset{x}
  {
    if |s| == 0 {
    } else if Leq(x, s[0]) {
    } else {
      LeqTotal(x, s[0]);
      InsertKeeps(x, s[1..]);
      var t := Insert(x, s[1..]);
      assert s == [s[0]] + s[1..];
      assert t[0] == x || (|s| > 1 && t[0] == s[1]);
    }
  }

  lemma {:induction false} SortedKeeps(s: seq<string>)
    ensures IsSorted(Sorted(s)) && multiset(Sorted(s)) == multiset(s)
  {
    if |s| > 0 {
      SortedKeeps(s[1..]);
      InsertKeeps(s[0], Sorted(s[1..]));
      assert s == [s[0]] + s[1..];
    }
  }

  lemma {:induction false} HeadIsLeast(s: seq<string>, k: nat)
    requires IsSorted(s) && k < |s|
    ensures Leq(s[0], s[k])
  {
    if k == 0 {
      LeqTotal(s[0], s[0]);
    } else {
      HeadIsLeast(s, k - 1);
      LeqTransitive(s[0], s[k - 1], s[k]);
    }
  }

  lemma SameHead(a: seq<string>, b: seq<string>)
    requires IsSorted(a) && IsSorted(b) && multiset(a) == multiset(b) && |a| > 0 && |b| > 0
    ensures a[0] == b[0]
  {
    assert a[0] in multiset(b) && b[0] in multiset(a);
    var i :| 0 <= i < |b| && b[i] == a[0];
    var j :| 0 <= j < |a| && a[j] == b[0];
    HeadIsLeast(b, i);
    HeadIsLeast(a, j);
    LeqAntisymmetric(a[0], b[0]);
  }

  lemma TailElements(a: seq<string>)
    requires |a| > 0
    ensures a == [a[0]] + a[1..] && multiset(a[1..]) == multiset(a) - multiset{a[0]}
    ensures IsSorted(a) ==> IsSorted(a[1..])
  {
    assert a == [a[0]] + a[1..];
  }

  /** A sorted list is determined by its elements. */
  lemma {:induction false} SortedUnique(a: seq<string>, b: seq<string>)
    requires IsSorted(a) && IsSorted(b) && multiset(a) == multiset(b)
    ensures a == b
  {
    assert |multiset(a)| == |a| && |multiset(b)| == |b|;
    if |a| > 0 {
      SameHead(a, b);
      TailElements(a);
      TailElements(b);
      hide IsSorted;
      SortedUnique(a[1..], b[1..]);
    }
  }

  /** What is hashed; the rest of a candidate does not identify the work. */
  datatype Payload = Payload(candidateUrl: string, targetId: string, targetVersion: string, techniques: seq<string>)

  function Canonical(url: string, targetId: string, targetVersion: string, techniques: seq<string>): Payload {
    Payload(url, targetId, targetVersion, Sorted(techniques))
  }

  ghost predicate Injective(hash: Payload -> string) {
    forall p, q :: hash(p) == hash(q) ==> p == q
  }

  /** With a hash that does not collide, two candidates share a job id exactly when they name
      the same url, target and version and the same techniques in any order. */
  lemma SameIdIff(hash: Payload -> string, url1: string, target1: string, version1: string, tech1: seq<string>,
                  url2: string, target2: string, version2: string, tech2: seq<string>)
    requires Injective(hash)
    ensures hash(Canonical(url1, target1, version1, tech1)) == hash(Canonical(url2, target2, version2, tech2)) <==>
            url1 == url2 && target1 == target2 && version1 == version2 && multiset(tech1) == multiset(tech2)
  {
    SortedKeeps(tech1);
    SortedKeeps(tech2);
    if multiset(tech1) == multiset(tech2) {
      SortedUnique(Sorted(tech1), Sorted(tech2));
    }
  }
}
