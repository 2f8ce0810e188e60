/**
 The job contract: a job is flattened to the string fields of a stream entry by the
 producer and by the retry path, and parsed back by the worker that claims the entry.
 */
module Jobs {
  import opened Wrappers
  import Text

  datatype Job = Job(
    jobId: string,
    mediaEvidenceId: string,
    mediaUrl: string,
    mediaType: string,
    sourceDomain: string,
    targetId: string,
    targetVersion: string,
    techniques: seq<string>,
    maxAttempts: int,
    schemaVersion: int)

  const JOB_SCHEMA_VERSION := 1

  datatype Name =
    | JobId | MediaEvidenceId | MediaUrl | MediaType | SourceDomain | TargetId | TargetVersion
    | Techniques | MaxAttempts | SchemaVersion | Other(name: string)

  type Fields = map<Name, string>

  const REQUIRED: seq<Name> :=
    [JobId, MediaEvidenceId, MediaUrl, MediaType, SourceDomain, TargetId, TargetVersion, Techniques, MaxAttempts]

  datatype JobError =
    | MissingFields(names: seq<Name>)
    | SchemaNotInteger
    | UnsupportedSchema(version: int)
    | MaxAttemptsNotInteger
    | MaxAttemptsBelowOne
    | NoTechniques

  function Print(j: Job): Fields {
    map[
      JobId := j.jobId,
      MediaEvidenceId := j.mediaEvidenceId,
      MediaUrl := j.mediaUrl,
      MediaType := j.mediaType,
      SourceDomain := j.sourceDomain,
      TargetId := j.targetId,
      TargetVersion := j.targetVersion,
      Techniques := Text.Join(j.techniques, ','),
      MaxAttempts := Text.Decimal(j.maxAttempts),
      SchemaVersion := Text.Decimal(j.schemaVersion)
    ]
  }

  predicate Present(fields: Fields, name: Name) {
    name in fields && fields[name] != ""
  }

  function Missing(fields: Fields, names: seq<Name>): (missing: seq<Name>)
    ensures forall n :: n in missing <==> n in names && !Present(fields, n)
  {
    if |names| == 0 then []
    else (if Present(fields, names[0]) then [] else [names[0]]) + Missing(fields, names[1..])
  }

  function WithoutEmpty(parts: seq<string>): (kept: seq<string>)
    ensures forall p :: p in kept <==> p in parts && p != ""
  {
    if |parts| == 0 then []
    else (if parts[0] == "" then [] else [parts[0]]) + WithoutEmpty(parts[1..])
  }

  function ParseSchema(fields: Fields): Result<int, JobError> {
    if !Present(fields, SchemaVersion) then Ok(JOB_SCHEMA_VERSION)
    else
      match Text.ParseInt(fields[SchemaVersion], 10)
      case None => Err(SchemaNotInteger)
      case Some(version) =>
        if version != JOB_SCHEMA_VERSION then Err(UnsupportedSchema(version)) else Ok(version)
  }

  function ParseMaxAttempts(text: string): Result<int, JobError> {
    match Text.ParseInt(text, 10)
    case None => Err(MaxAttemptsNotInteger)
    case Some(n) => if n < 1 then Err(MaxAttemptsBelowOne) else Ok(n)
  }

  function Parse(fields: Fields): Result<Job, JobError> {
    var missing := Missing(fields, REQUIRED);
    if missing != [] then Err(MissingFields(missing))
    else
      AllPresent(fields);
      ParsePresent(fields)
  }

  predicate Complete(fields: Fields) {
    && Present(fields, JobId) && Present(fields, MediaEvidenceId) && Present(fields, MediaUrl)
    && Present(fields, MediaType) && Present(fields, SourceDomain) && Present(fields, TargetId)
    && Present(fields, TargetVersion) && Present(fields, Techniques) && Present(fields, MaxAttempts)
  }

  lemma AllPresent(fields: Fields)
    ensures Missing(fields, REQUIRED) == [] <==> Complete(fields)
  {
    var missing := Missing(fields, REQUIRED);
    if missing == [] {
      forall i | 0 <= i < |REQUIRED| ensures Present(fields, REQUIRED[i]) {
        assert REQUIRED[i] in REQUIRED && REQUIRED[i] !in missing;
      }
      assert Present(fields, REQUIRED[0]) && Present(fields, REQUIRED[1]) && Present(fields, REQUIRED[2]);
      assert Present(fields, REQUIRED[3]) && Present(fields, REQUIRED[4]) && Present(fields, REQUIRED[5]);
      assert Present(fields, REQUIRED[6]) && Present(fields, REQUIRED[7]) && Present(fields, REQUIRED[8]);
    } else {
      assert missing[0] in missing;
    }
  }

  function ParsePresent(fields: Fields): Result<Job, JobError>
    requires Complete(fields)
  {
    match ParseSchema(fields)
    case Err(e) => Err(e)
    case Ok(schema) =>
      match ParseMaxAttempts(fields[MaxAttempts])
      case Err(e) => Err(e)
      case Ok(maxAttempts) =>
        var techniques := WithoutEmpty(Text.Split(fields[Techniques], ','));
        if techniques == [] then Err(NoTechniques)
        else
          Ok(Job(fields[JobId], fields[MediaEvidenceId], fields[MediaUrl], fields[MediaType],
                 fields[SourceDomain], fields[TargetId], fields[TargetVersion],
                 techniques, maxAttempts, schema))
  }

  /** The jobs whose printed form parses back to them. */
  predicate WellFormed(j: Job) {
    && j.jobId != "" && j.mediaEvidenceId != "" && j.mediaUrl != "" && j.mediaType != ""
    && j.sourceDomain != "" && j.targetId != "" && j.targetVersion != ""
    && |j.techniques| > 0
    && (forall t :: t in j.techniques ==> t != "" && ',' !in t)
    && j.maxAttempts >= 1
    && j.schemaVersion == JOB_SCHEMA_VERSION
  }

  lemma ParsedIsWellFormed(fields: Fields)
    requires Parse(fields).Ok?
    ensures WellFormed(Parse(fields).value)
  {
    AllPresent(fields);
  }

  lemma {:induction false} WithoutEmptyKeeps(parts: seq<string>)
    requires forall p :: p in parts ==> p != ""
    ensures WithoutEmpty(parts) == parts
  {
    if |parts| > 0 {
      assert parts[0] in parts;
      forall p | p in parts[1..] ensures p != "" {
        assert p in parts;
      }
      WithoutEmptyKeeps(parts[1..]);
    }
  }

  lemma {:induction false} WithoutEmptyAppend(a: seq<string>, b: seq<string>)
    ensures WithoutEmpty(a + b) == WithoutEmpty(a) + WithoutEmpty(b)
  {
    if |a| == 0 {
      assert a + b == b;
    } else {
      assert (a + b)[1..] == a[1..] + b;
      WithoutEmptyAppend(a[1..], b);
    }
  }

  /** Something is left of a text cut at commas unless it is commas throughout. */
  lemma {:induction false} CommasOnly(s: string)
    ensures WithoutEmpty(Text.Split(s, ',')) == [] <==> forall k :: 0 <= k < |s| ==> s[k] == ','
  {
    if s != "" {
      var rest := Text.Split(s[1..], ',');
      var parts := Text.Split(s, ',');
      CommasOnly(s[1..]);
      if s[0] == ',' {
        assert parts == [""] + rest && parts[1..] == rest;
        assert forall k :: 0 <= k < |s[1..]| ==> s[1..][k] == s[k + 1];
      } else {
        assert parts[0] in parts && parts[0] != "";
      }
    }
  }

  /** Which entries are accepted: every required field is there and not empty, the schema version is
      absent, empty or 1, at least one attempt is allowed, and the techniques are not commas only. */
  lemma ParseAccepts(fields: Fields)
    ensures Parse(fields).Ok? <==>
            && Complete(fields)
            && (SchemaVersion in fields && fields[SchemaVersion] != "" ==> Text.ParseInt(fields[SchemaVersion], 10) == Some(1))
            && (var n := Text.ParseInt(fields[MaxAttempts], 10); n.Some? && n.value >= 1)
            && (exists k :: 0 <= k < |fields[Techniques]| && fields[Techniques][k] != ',')
  {
    AllPresent(fields);
    if Complete(fields) {
      CommasOnly(fields[Techniques]);
    }
  }

  /** What is accepted is read field by field; the techniques are the parts between commas, in
      order, without the empty ones. */
  lemma ParsedFields(fields: Fields)
    requires Parse(fields).Ok?
    ensures var j := Parse(fields).value;
            && fields.Keys >= {JobId, MediaEvidenceId, MediaUrl, MediaType, SourceDomain, TargetId, TargetVersion, Techniques, MaxAttempts}
            && j.jobId == fields[JobId] && j.mediaEvidenceId == fields[MediaEvidenceId]
            && j.mediaUrl == fields[MediaUrl] && j.mediaType == fields[MediaType] && j.sourceDomain == fields[SourceDomain]
            && j.targetId == fields[TargetId] && j.targetVersion == fields[TargetVersion]
            && Text.ParseInt(fields[MaxAttempts], 10) == Some(j.maxAttempts) && j.schemaVersion == 1
            && Text.Join(Text.Split(fields[Techniques], ','), ',') == fields[Techniques]
            && j.techniques == WithoutEmpty(Text.Split(fields[Techniques], ','))
  {
    AllPresent(fields);
    Text.JoinSplit(fields[Techniques], ',');
  }

  /** An entry with a required field missing or empty is refused for that, and all of them are named. */
  lemma ParseNamesMissing(fields: Fields)
    requires !Complete(fields)
    ensures Parse(fields).Err? && Parse(fields).error.MissingFields?
    ensures forall n :: n in Parse(fields).error.names <==> n in REQUIRED && (n in fields ==> fields[n] == "")
  {
    AllPresent(fields);
  }

  /** Why a complete entry is refused: for the schema version first, then for the attempts, then for
      the techniques. */
  lemma ParseRefuses(fields: Fields)
    requires Complete(fields) && Parse(fields).Err?
    ensures var e := Parse(fields).error;
            var attempts := Text.ParseInt(fields[MaxAttempts], 10);
            var schema := if SchemaVersion in fields && fields[SchemaVersion] != "" then Text.ParseInt(fields[SchemaVersion], 10) else Some(1);
            e == match (schema, attempts)
                 case (None, _) => SchemaNotInteger
                 case (Some(version), None) => if version != 1 then UnsupportedSchema(version) else MaxAttemptsNotInteger
                 case (Some(version), Some(n)) =>
                   if version != 1 then UnsupportedSchema(version) else if n < 1 then MaxAttemptsBelowOne else NoTechniques
    ensures Parse(fields).error == NoTechniques ==> forall k :: 0 <= k < |fields[Techniques]| ==> fields[Techniques][k] == ','
  {
    AllPresent(fields);
    CommasOnly(fields[Techniques]);
    assert Parse(fields) == ParsePresent(fields);
    assert MaxAttempts in fields && Techniques in fields;
    hide Text.ParseInt, Text.Split, WithoutEmpty, Missing, Parse, Complete;
  }

  lemma {:induction false} JoinNonEmpty(parts: seq<string>)
    requires |parts| > 0 && parts[0] != ""
    ensures Text.Join(parts, ',') != ""
  {
  }

  lemma PrintedPresent(j: Job)
    requires WellFormed(j)
    ensures Complete(Print(j))
    ensures Present(Print(j), SchemaVersion)
  {
    Text.DecimalNatDigits(j.maxAttempts);
    Text.DecimalNatDigits(j.schemaVersion);
    assert j.techniques[0] in j.techniques;
    JoinNonEmpty(j.techniques);
  }

  lemma PrintedTechniques(j: Job)
    requires WellFormed(j)
    ensures WithoutEmpty(Text.Split(Print(j)[Techniques], ',')) == j.techniques
  {
    Text.SplitJoin(j.techniques, ',');
    WithoutEmptyKeeps(j.techniques);
  }

  lemma PrintedNumbers(j: Job)
    requires WellFormed(j)
    ensures ParseMaxAttempts(Print(j)[MaxAttempts]) == Ok(j.maxAttempts)
    ensures ParseSchema(Print(j)) == Ok(j.schemaVersion)
  {
    PrintedPresent(j);
    Text.ParseDecimal(j.maxAttempts);
    Text.ParseDecimal(j.schemaVersion);
  }

  lemma PrintedParses(j: Job)
    requires WellFormed(j)
    ensures Parse(Print(j)) == Ok(j)
  {
    PrintedPresent(j);
    PrintedTechniques(j);
    PrintedNumbers(j);
    var fields := Print(j);
    assert fields[JobId] == j.jobId && fields[MediaEvidenceId] == j.mediaEvidenceId && fields[MediaUrl] == j.mediaUrl;
    assert fields[MediaType] == j.mediaType && fields[SourceDomain] == j.sourceDomain;
    assert fields[TargetId] == j.targetId && fields[TargetVersion] == j.targetVersion;
    AllPresent(fields);
    hide Print, WithoutEmpty, ParseSchema, ParseMaxAttempts, Missing, Present, Complete;
  }

  /** A job survives printing and parsing exactly when it is well formed. */
  lemma RoundTrip(j: Job)
    ensures Parse(Print(j)) == Ok(j) <==> WellFormed(j)
  {
    if WellFormed(j) {
      PrintedParses(j);
    }
    if Parse(Print(j)) == Ok(j) {
      ParsedIsWellFormed(Print(j));
    }
  }

  /** Whatever a worker accepted, its retry payload is accepted as the very same job. */
  lemma ParsePrintParse(fields: Fields)
    requires Parse(fields).Ok?
    ensures Parse(Print(Parse(fields).value)) == Parse(fields)
  {
    ParsedIsWellFormed(fields);
    PrintedParses(Parse(fields).value);
  }

  /** Two accepted jobs with the same retry payload are the same job. */
  lemma PrintInjective(a: Job, b: Job)
    requires WellFormed(a) && WellFormed(b)
    requires Print(a) == Print(b)
    ensures a == b
  {
    PrintedParses(a);
    PrintedParses(b);
  }
}
