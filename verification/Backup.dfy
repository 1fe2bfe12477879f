/** The portable memory backup: what an export must look like, and what the envelope's checksum protects. */
module Backup {
  import opened CanonicalJson
  import opened Json
  import opened Sorting
  import opened Text
  import opened Wrappers

  const KIND := "lca_agentmemory_backup"

  // ---------------------------------------------------------------- reading fields

  /** `value?.key`: only plain objects carry the fields that are asked for here. */
  function Get(v: Option<Json>, key: string): Option<Json> {
    if v.Some? && v.value.JObj? then Find(v.value.fields, key) else None
  }

  function Find(fields: seq<Field>, key: string): Option<Json> {
    if fields == [] then None
    else if fields[0].key == key then Some(fields[0].value)
    else Find(fields[1..], key)
  }

  predicate IsVersion(v: Option<Json>) {
    v.Some? && v.value.JStr? && !IsBlank(v.value.s)
  }

  predicate IsArray(v: Option<Json>) {
    v.Some? && v.value.JArr?
  }

  predicate IsObject(v: Option<Json>) {
    v.Some? && v.value.JObj?
  }

  function ItemCount(v: Option<Json>): nat {
    if IsArray(v) then |v.value.items| else 0
  }

  function Buckets(v: Option<Json>): seq<Field> {
    if IsObject(Get(v, "observations")) then Get(v, "observations").value.fields else []
  }

  // ---------------------------------------------------------------- what a valid export is

  function BucketSize(f: Field): nat {
    if f.value.JArr? then |f.value.items| else 0
  }

  function TotalSize(buckets: seq<Field>): nat {
    if buckets == [] then 0 else TotalSize(buckets[..|buckets| - 1]) + BucketSize(buckets[|buckets| - 1])
  }

  predicate ValidBucket(f: Field) {
    f.value.JArr? && |f.value.items| <= 5_000
  }

  predicate ValidBuckets(buckets: seq<Field>) {
    && (forall f | f in buckets :: ValidBucket(f))
    && TotalSize(buckets) <= 500_000
  }

  /** Everything a valid export promises outside its buckets. */
  predicate ValidShape(v: Option<Json>) {
    && IsVersion(Get(v, "version"))
    && IsArray(Get(v, "sessions")) && ItemCount(Get(v, "sessions")) <= 10_000
    && IsArray(Get(v, "memories")) && ItemCount(Get(v, "memories")) <= 50_000
    && IsArray(Get(v, "summaries")) && ItemCount(Get(v, "summaries")) <= 10_000
    && IsObject(Get(v, "observations")) && |Buckets(v)| <= 10_000
  }

  predicate ValidExport(v: Option<Json>) {
    ValidShape(v) && ValidBuckets(Buckets(v))
  }

  datatype Problem =
    | NotAnObject | BadVersion | SessionsNotArray | ObservationsNotObject | MemoriesNotArray | SummariesNotArray
    | TooManySessions(n: nat) | TooManyMemories(n: nat) | TooManySummaries(n: nat) | TooManyBuckets(n: nat)
    | BucketNotArray(id: string) | BucketTooLarge(id: string, n: nat) | TooManyObservations(n: nat)
    | BadSchema | BadKind | BadAlgorithm | ChecksumMismatch

  function When(condition: bool, problem: Problem): seq<Problem> {
    if condition then [problem] else []
  }

  // ---------------------------------------------------------------- the same, spelled out

  /** The object holds this value under the key; of several fields of one name the first counts. */
  ghost predicate Has(v: Json, key: string, x: Json) {
    v.JObj? && exists i | 0 <= i < |v.fields| :: IsFieldAt(v.fields, i, key, x)
  }

  predicate IsFieldAt(fields: seq<Field>, i: nat, key: string, x: Json)
    requires i < |fields|
  {
    fields[i] == Field(key, x) && forall j | 0 <= j < i :: fields[j].key != key
  }

  ghost predicate Given(v: Option<Json>, key: string, x: Json) {
    v.Some? && Has(v.value, key, x)
  }

  lemma {:induction false} FindIsExact(fields: seq<Field>, key: string, x: Json)
    ensures Find(fields, key) == Some(x) <==> exists i | 0 <= i < |fields| :: IsFieldAt(fields, i, key, x)
  {
    if fields != [] {
      FindIsExact(fields[1..], key, x);
      if i :| 0 <= i < |fields[1..]| && IsFieldAt(fields[1..], i, key, x) && fields[0].key != key {
        assert IsFieldAt(fields, i + 1, key, x) by {
          assert forall j | 0 < j <= i :: fields[j] == fields[1..][j - 1];
        }
      }
      if i :| 0 < i < |fields| && IsFieldAt(fields, i, key, x) {
        assert fields[0].key != key;
        assert IsFieldAt(fields[1..], i - 1, key, x);
      }
      if fields[0] == Field(key, x) {
        assert IsFieldAt(fields, 0, key, x);
      }
    }
  }

  lemma GetIsExact(v: Option<Json>, key: string)
    ensures forall x :: Get(v, key) == Some(x) <==> Given(v, key, x)
  {
    forall x ensures Get(v, key) == Some(x) <==> Given(v, key, x) {
      if v.Some? && v.value.JObj? {
        FindIsExact(v.value.fields, key, x);
      }
    }
  }

  /** All observations, bucket by bucket. */
  function AllItems(buckets: seq<Field>): seq<Json> {
    if buckets == [] then []
    else AllItems(buckets[..|buckets| - 1])
         + if buckets[|buckets| - 1].value.JArr? then buckets[|buckets| - 1].value.items else []
  }

  lemma {:induction false} TotalSizeCountsItems(buckets: seq<Field>)
    ensures TotalSize(buckets) == |AllItems(buckets)|
  {
    if buckets != [] {
      TotalSizeCountsItems(buckets[..|buckets| - 1]);
    }
  }

  ghost predicate IsGivenVersion(v: Option<Json>) {
    exists s :: Given(v, "version", JStr(s)) && exists c | c in s :: !IsWhitespace(c)
  }

  ghost predicate IsGivenArray(v: Option<Json>, key: string) {
    exists xs :: Given(v, key, JArr(xs))
  }

  /** There are so many under the key, and they are too many. */
  ghost predicate TooMany(v: Option<Json>, key: string, n: nat, limit: nat) {
    n > limit && exists xs :: Given(v, key, JArr(xs)) && |xs| == n
  }

  ghost predicate AreBuckets(v: Option<Json>, buckets: seq<Field>) {
    Given(v, "observations", JObj(buckets))
  }

  /** What can be wrong with an export. */
  ghost predicate IsProblem(v: Option<Json>, p: Problem) {
    match p
    case NotAnObject => v == None || !v.value.JObj?
    case BadVersion => !IsGivenVersion(v)
    case SessionsNotArray => !IsGivenArray(v, "sessions")
    case MemoriesNotArray => !IsGivenArray(v, "memories")
    case SummariesNotArray => !IsGivenArray(v, "summaries")
    case ObservationsNotObject => !exists buckets :: AreBuckets(v, buckets)
    case TooManySessions(n) => TooMany(v, "sessions", n, 10_000)
    case TooManyMemories(n) => TooMany(v, "memories", n, 50_000)
    case TooManySummaries(n) => TooMany(v, "summaries", n, 10_000)
    case TooManyBuckets(n) => n > 10_000 && exists buckets :: AreBuckets(v, buckets) && |buckets| == n
    case TooManyObservations(n) => n > 500_000 && exists buckets :: AreBuckets(v, buckets) && |AllItems(buckets)| == n
    case BucketNotArray(id) => exists buckets, f: Field :: AreBuckets(v, buckets) && f in buckets && f.key == id && !f.value.JArr?
    case BucketTooLarge(id, n) =>
      n > 5_000 && exists buckets, xs :: AreBuckets(v, buckets) && Field(id, JArr(xs)) in buckets && |xs| == n
    case _ => false
  }

  lemma BucketsAreGiven(v: Option<Json>)
    ensures IsObject(Get(v, "observations")) <==> exists buckets :: AreBuckets(v, buckets)
    ensures forall buckets :: AreBuckets(v, buckets) ==> buckets == Buckets(v)
    ensures IsObject(Get(v, "observations")) ==> AreBuckets(v, Buckets(v))
    ensures !IsObject(Get(v, "observations")) ==> Buckets(v) == []
  {
    hide Get, Given;
    GetIsExact(v, "observations");
    if IsObject(Get(v, "observations")) {
      assert Get(v, "observations") == Some(JObj(Buckets(v)));
      assert AreBuckets(v, Buckets(v));
    }
  }

  lemma ArrayIsGiven(v: Option<Json>, key: string)
    ensures IsArray(Get(v, key)) <==> IsGivenArray(v, key)
    ensures forall n: nat, limit: nat :: TooMany(v, key, n, limit) <==> n > limit && n == ItemCount(Get(v, key))
  {
    hide Get, Given;
    GetIsExact(v, key);
  }

  lemma VersionIsGiven(v: Option<Json>)
    ensures IsVersion(Get(v, "version")) <==> IsGivenVersion(v)
  {
    hide Get, Given, IsWhitespace;
    GetIsExact(v, "version");
  }

  lemma KindProblemsAreProblems(v: Option<Json>, p: Problem)
    ensures p in KindProblems(v) <==>
            IsProblem(v, p) && p in {NotAnObject, BadVersion, SessionsNotArray, ObservationsNotObject, MemoriesNotArray, SummariesNotArray}
  {
    VersionIsGiven(v);
    ArrayIsGiven(v, "sessions");
    ArrayIsGiven(v, "memories");
    ArrayIsGiven(v, "summaries");
    BucketsAreGiven(v);
    hide Get, IsVersion, IsArray, IsGivenVersion, IsGivenArray, AreBuckets, TooMany;
  }

  lemma SizeProblemsAreProblems(v: Option<Json>, p: Problem)
    ensures p in SizeProblems(ItemCount(Get(v, "sessions")), ItemCount(Get(v, "memories")), ItemCount(Get(v, "summaries")), |Buckets(v)|)
       <==> IsProblem(v, p) && (p.TooManySessions? || p.TooManyMemories? || p.TooManySummaries? || p.TooManyBuckets?)
  {
    ArrayIsGiven(v, "sessions");
    ArrayIsGiven(v, "memories");
    ArrayIsGiven(v, "summaries");
    BucketsAreGiven(v);
    hide Get, Buckets, ItemCount, IsGivenVersion, IsGivenArray, AreBuckets, TooMany;
  }

  lemma BucketProblemsAreProblems(v: Option<Json>, p: Problem)
    ensures (exists f | f in Buckets(v) :: p in BucketProblems(f)) <==>
            IsProblem(v, p) && (p.BucketNotArray? || p.BucketTooLarge?)
  {
    BucketsAreGiven(v);
    hide Get, Buckets, AreBuckets;
    if f :| f in Buckets(v) && p in BucketProblems(f) {
      if f.value.JArr? {
        assert Field(f.key, JArr(f.value.items)) == f;
      }
    }
    if p.BucketTooLarge? && IsProblem(v, p) {
      var buckets, xs :| AreBuckets(v, buckets) && Field(p.id, JArr(xs)) in buckets && |xs| == p.n;
      assert p in BucketProblems(Field(p.id, JArr(xs)));
    }
    if p.BucketNotArray? && IsProblem(v, p) {
      var buckets: seq<Field>, f: Field :| AreBuckets(v, buckets) && f in buckets && f.key == p.id && !f.value.JArr?;
      assert p in BucketProblems(f);
    }
  }

  lemma TotalProblemIsProblem(v: Option<Json>, p: Problem)
    ensures p in When(TotalSize(Buckets(v)) > 500_000, TooManyObservations(TotalSize(Buckets(v))))
       <==> IsProblem(v, p) && p.TooManyObservations?
  {
    BucketsAreGiven(v);
    TotalSizeCountsItems(Buckets(v));
    hide Get, Buckets, AreBuckets;
    assert Buckets(v) == [] ==> TotalSize(Buckets(v)) == 0;
    hide TotalSize, AllItems;
  }

  lemma ProblemsAreExact(v: Option<Json>, inner: seq<Problem>, p: Problem)
    requires Reports(Buckets(v), inner)
    ensures var total := TotalSize(Buckets(v));
            (p in ShapeProblems(v) + inner + When(total > 500_000, TooManyObservations(total))) <==> IsProblem(v, p)
  {
    KindProblemsAreProblems(v, p);
    SizeProblemsAreProblems(v, p);
    BucketProblemsAreProblems(v, p);
    TotalProblemIsProblem(v, p);
    assert p in inner <==> exists f | f in Buckets(v) :: p in BucketProblems(f);
    var sizes := SizeProblems(ItemCount(Get(v, "sessions")), ItemCount(Get(v, "memories")), ItemCount(Get(v, "summaries")), |Buckets(v)|);
    assert p in ShapeProblems(v) <==> p in KindProblems(v) || p in sizes;
    assert IsProblem(v, p) ==> !p.BadSchema? && !p.BadKind? && !p.BadAlgorithm? && !p.ChecksumMismatch?;
    hide *;
  }

  /** A valid export is one with which nothing is wrong. */
  lemma ValidExportIsExact(v: Option<Json>)
    ensures ValidExport(v) <==> forall p :: !IsProblem(v, p)
  {
    hide *;
    var total := TotalSize(Buckets(v));
    var inner := FlatProblems(Buckets(v));
    var all := ShapeProblems(v) + inner + When(total > 500_000, TooManyObservations(total));
    NoProblemsIsValid(v, inner);
    forall p ensures p in all <==> IsProblem(v, p) {
      ProblemsAreExact(v, inner, p);
    }
    assert all == [] <==> forall p :: p !in all by {
      assert all != [] ==> all[0] in all;
    }
  }

  lemma {:induction false} FlatProblems(buckets: seq<Field>) returns (errors: seq<Problem>)
    ensures Reports(buckets, errors)
  {
    if buckets == [] {
      errors := [];
    } else {
      hide Reports, BucketProblems;
      var n := |buckets| - 1;
      errors := FlatProblems(buckets[..n]);
      ReportsAppend(buckets[..n], errors, buckets[n]);
      errors := errors + BucketProblems(buckets[n]);
      assert buckets[..n] + [buckets[n]] == buckets;
    }
  }

  lemma NoProblemsIsValid(v: Option<Json>, inner: seq<Problem>)
    requires Reports(Buckets(v), inner)
    ensures var total := TotalSize(Buckets(v));
            ShapeProblems(v) + inner + When(total > 500_000, TooManyObservations(total)) == [] <==> ValidExport(v)
  {
    ShapeProblemsAreExact(v);
    ReportsNothing(Buckets(v), inner);
    hide ShapeProblems, ValidShape, ValidBucket, TotalSize, Buckets;
  }

  /** Checks an export. Exactly its problems are reported, and none exactly when it is valid; the total is exact. */
  method ValidateExport(v: Option<Json>) returns (errors: seq<Problem>, total: nat)
    ensures errors == [] <==> ValidExport(v)
    ensures total == TotalSize(Buckets(v))
    ensures forall p :: p in errors <==> IsProblem(v, p)
  {
    hide *;
    var inner;
    inner, total := ValidateBuckets(Buckets(v));
    errors := ShapeProblems(v) + inner + When(total > 500_000, TooManyObservations(total));
    NoProblemsIsValid(v, inner);
    forall p ensures p in errors <==> IsProblem(v, p) {
      ProblemsAreExact(v, inner, p);
    }
  }

  function KindProblems(v: Option<Json>): seq<Problem> {
    When(!IsObject(v), NotAnObject) + When(!IsVersion(Get(v, "version")), BadVersion)
    + When(!IsArray(Get(v, "sessions")), SessionsNotArray)
    + When(!IsObject(Get(v, "observations")), ObservationsNotObject)
    + When(!IsArray(Get(v, "memories")), MemoriesNotArray) + When(!IsArray(Get(v, "summaries")), SummariesNotArray)
  }

  function SizeProblems(sessions: nat, memories: nat, summaries: nat, buckets: nat): seq<Problem> {
    When(sessions > 10_000, TooManySessions(sessions)) + When(memories > 50_000, TooManyMemories(memories))
    + When(summaries > 10_000, TooManySummaries(summaries)) + When(buckets > 10_000, TooManyBuckets(buckets))
  }

  function ShapeProblems(v: Option<Json>): seq<Problem> {
    KindProblems(v) + SizeProblems(ItemCount(Get(v, "sessions")), ItemCount(Get(v, "memories")),
                                   ItemCount(Get(v, "summaries")), |Buckets(v)|)
  }

  lemma KindProblemsAreExact(v: Option<Json>)
    ensures KindProblems(v) == [] <==>
            && IsVersion(Get(v, "version")) && IsArray(Get(v, "sessions")) && IsObject(Get(v, "observations"))
            && IsArray(Get(v, "memories")) && IsArray(Get(v, "summaries"))
  {
    assert !IsObject(v) ==> Get(v, "observations") == None;
    hide Get, IsVersion, IsArray;
  }

  lemma ShapeProblemsAreExact(v: Option<Json>)
    ensures ShapeProblems(v) == [] <==> ValidShape(v)
  {
    KindProblemsAreExact(v);
    hide IsVersion, IsArray, Buckets, ItemCount, Get, KindProblems;
  }

  /** `errors` are what the bucket loop reports about `buckets`. */
  ghost predicate Reports(buckets: seq<Field>, errors: seq<Problem>) {
    forall p :: p in errors <==> exists f | f in buckets :: p in BucketProblems(f)
  }

  lemma ReportsNothing(buckets: seq<Field>, errors: seq<Problem>)
    requires Reports(buckets, errors)
    ensures errors == [] <==> forall f | f in buckets :: ValidBucket(f)
  {
    forall f | f in buckets ensures BucketProblems(f) != [] ==> errors != [] {
      if BucketProblems(f) != [] {
        assert BucketProblems(f)[0] in errors;
      }
    }
    if errors != [] {
      assert errors[0] in errors;
    }
  }

  function BucketProblems(f: Field): seq<Problem> {
    if !f.value.JArr? then [BucketNotArray(f.key)]
    else When(|f.value.items| > 5_000, BucketTooLarge(f.key, |f.value.items|))
  }

  lemma ReportsAppend(buckets: seq<Field>, errors: seq<Problem>, f: Field)
    requires Reports(buckets, errors)
    ensures Reports(buckets + [f], errors + BucketProblems(f))
  {
    hide BucketProblems;
    var all, more := buckets + [f], errors + BucketProblems(f);
    assert f in all;
    assert forall g | g in all :: g in buckets || g == f;
    assert forall g | g in buckets :: g in all;
    assert forall p :: p in more <==> p in errors || p in BucketProblems(f);
  }

  lemma TotalSizeAppend(buckets: seq<Field>, f: Field)
    ensures TotalSize(buckets + [f]) == TotalSize(buckets) + BucketSize(f)
  {
    assert (buckets + [f])[..|buckets|] == buckets;
  }

  method ValidateBuckets(buckets: seq<Field>) returns (errors: seq<Problem>, total: nat)
    ensures Reports(buckets, errors)
    ensures total == TotalSize(buckets)
  {
    errors, total := [], 0;
    for i := 0 to |buckets|
      invariant total == TotalSize(buckets[..i])
      invariant Reports(buckets[..i], errors)
    {
      hide Reports, TotalSize;
      var f := buckets[i];
      assert buckets[..i + 1] == buckets[..i] + [f];
      ReportsAppend(buckets[..i], errors, f);
      TotalSizeAppend(buckets[..i], f);
      if !f.value.JArr? {
        errors := errors + [BucketNotArray(f.key)];
        continue;
      }
      if |f.value.items| > 5_000 {
        errors := errors + [BucketTooLarge(f.key, |f.value.items|)];
      }
      assert BucketProblems(f) == [] ==> errors + [] == errors;
      total := total + |f.value.items|;
    }
    assert buckets[..|buckets|] == buckets;
  }

  // ---------------------------------------------------------------- the envelope

  /** What else goes into an envelope; none of it is checked when the backup is read. */
  datatype Origin = Origin(createdAt: Json, source: Json, counts: Json)

  function EnvelopeOf(exportData: Json, hash: string, origin: Origin): Json {
    JObj([Field("schema", JNum("1")), Field("kind", JStr(KIND)), Field("createdAt", origin.createdAt),
          Field("source", origin.source), Field("counts", origin.counts),
          Field("checksum", JObj([Field("algorithm", JStr("sha256")), Field("value", JStr(hash))])),
          Field("exportData", exportData)])
  }

  method CreateEnvelope(exportData: Json, digest: string -> string, origin: Origin)
    returns (r: Result<Json, seq<Problem>>)
    ensures r.Ok? <==> ValidExport(Some(exportData))
    ensures r.Ok? ==> r.value == EnvelopeOf(exportData, digest(StableStringify(exportData)), origin)
  {
    var errors, _ := ValidateExport(Some(exportData));
    if errors != [] {
      return Err(errors);
    }
    return Ok(EnvelopeOf(exportData, digest(StableStringify(exportData)), origin));
  }

  /** Schema, kind, algorithm and export are right, and the recorded checksum is the export's own. */
  predicate ValidEnvelope(envelope: Json, digest: string -> string) {
    && Get(Some(envelope), "schema") == Some(JNum("1"))
    && Get(Some(envelope), "kind") == Some(JStr(KIND))
    && Get(Get(Some(envelope), "checksum"), "algorithm") == Some(JStr("sha256"))
    && var exportData := Get(Some(envelope), "exportData");
    && ValidExport(exportData)
    && Get(Get(Some(envelope), "checksum"), "value") == Some(JStr(digest(StableStringify(exportData.value))))
  }

  /** The envelope names its schema and kind, and its checksum is that of the valid export it holds. */
  ghost predicate IsEnvelope(envelope: Json, digest: string -> string) {
    && Has(envelope, "schema", JNum("1")) && Has(envelope, "kind", JStr("lca_agentmemory_backup"))
    && exists checksum, exportData ::
         && Has(envelope, "checksum", checksum) && Has(envelope, "exportData", exportData)
         && IsProtected(checksum, exportData, digest)
  }

  ghost predicate IsProtected(checksum: Json, exportData: Json, digest: string -> string) {
    && Has(checksum, "algorithm", JStr("sha256"))
    && Has(checksum, "value", JStr(digest(StableStringify(exportData))))
    && forall p :: !IsProblem(Some(exportData), p)
  }

  lemma ProtectedIsExact(checksum: Json, exportData: Json, digest: string -> string)
    ensures IsProtected(checksum, exportData, digest) <==>
            && Get(Some(checksum), "algorithm") == Some(JStr("sha256")) && ValidExport(Some(exportData))
            && Get(Some(checksum), "value") == Some(JStr(digest(StableStringify(exportData))))
  {
    GetIsExact(Some(checksum), "algorithm");
    GetIsExact(Some(checksum), "value");
    ValidExportIsExact(Some(exportData));
    hide Get, Has, IsProblem, StableStringify, ValidExport;
  }

  /** What an envelope is, and what it is made of. */
  lemma EnvelopeIsExact(envelope: Json, digest: string -> string)
    ensures ValidEnvelope(envelope, digest) <==> IsEnvelope(envelope, digest)
  {
    var e := Some(envelope);
    var checksum, exportData := Get(e, "checksum"), Get(e, "exportData");
    GetIsExact(e, "schema");
    GetIsExact(e, "kind");
    GetIsExact(e, "checksum");
    GetIsExact(e, "exportData");
    assert checksum == None ==> Get(checksum, "algorithm") == None;
    assert exportData == None ==> !ValidExport(exportData);
    if exportData.Some? && checksum.Some? {
      ProtectedIsExact(checksum.value, exportData.value, digest);
    }
    hide Get, Has, IsProtected, StableStringify, ValidExport;
    if ValidEnvelope(envelope, digest) {
      assert Given(e, "checksum", checksum.value) && Given(e, "exportData", exportData.value);
    }
    if IsEnvelope(envelope, digest) {
      var c, x :| Has(envelope, "checksum", c) && Has(envelope, "exportData", x) && IsProtected(c, x, digest);
      assert Given(e, "checksum", c) && Given(e, "exportData", x);
    }
  }

  method ValidateEnvelope(envelope: Json, digest: string -> string) returns (errors: seq<Problem>)
    requires forall s :: digest(s) != ""
    ensures errors == [] <==> ValidEnvelope(envelope, digest)
    ensures errors == [] <==> IsEnvelope(envelope, digest)
  {
    EnvelopeIsExact(envelope, digest);
    var checksum, exportData := Get(Some(envelope), "checksum"), Get(Some(envelope), "exportData");
    errors := When(!envelope.JObj?, NotAnObject)
      + When(Get(Some(envelope), "schema") != Some(JNum("1")), BadSchema)
      + When(Get(Some(envelope), "kind") != Some(JStr(KIND)), BadKind)
      + When(Get(checksum, "algorithm") != Some(JStr("sha256")), BadAlgorithm);
    ghost var outer := errors;
    var inner, _ := ValidateExport(exportData);
    errors := errors + inner;
    if inner == [] {
      var actual := digest(StableStringify(exportData.value));
      if actual != "" && Get(checksum, "value") != Some(JStr(actual)) {
        errors := errors + [ChecksumMismatch];
      }
    }
    assert outer == [] <==>
           && Get(Some(envelope), "schema") == Some(JNum("1"))
           && Get(Some(envelope), "kind") == Some(JStr(KIND))
           && Get(checksum, "algorithm") == Some(JStr("sha256"));
  }

  // ---------------------------------------------------------------- field order does not matter

  lemma {:induction false} FindMember(fields: seq<Field>, i: nat)
    requires DistinctKeys(fields) && i < |fields|
    ensures Find(fields, fields[i].key) == Some(fields[i].value)
  {
    if i > 0 {
      assert fields[0].key != fields[i].key;
      FindMember(fields[1..], i - 1);
    }
  }

  lemma {:induction false} FindNone(fields: seq<Field>, key: string)
    ensures Find(fields, key) == None <==> !HasKey(fields, key)
  {
    if fields != [] {
      FindNone(fields[1..], key);
      assert fields[0].key != key && HasKey(fields, key) ==> HasKey(fields[1..], key) by {
        if fields[0].key != key && HasKey(fields, key) {
          var i :| 0 <= i < |fields| && fields[i].key == key;
          assert fields[1..][i - 1].key == key;
        }
      }
      assert HasKey(fields[1..], key) ==> HasKey(fields, key) by {
        if HasKey(fields[1..], key) {
          var i :| 0 <= i < |fields[1..]| && fields[1..][i].key == key;
          assert fields[i + 1].key == key;
        }
      }
    }
  }

  function CanonicalOption(v: Option<Json>): Option<Json> {
    if v.Some? then Some(Canonical(v.value)) else None
  }

  /** Looking a field up commutes with canonicalisation. */
  lemma GetCanonical(v: Option<Json>, key: string)
    requires v.Some? ==> WellFormed(v.value)
    ensures Get(CanonicalOption(v), key) == CanonicalOption(Get(v, key))
    ensures Get(v, key).Some? ==> WellFormed(Get(v, key).value)
  {
    if v.Some? && v.value.JObj? {
      var fields := v.value.fields;
      var r := Arrange(CanonicalFields(fields));
      FindNone(fields, key);
      FindNone(r, key);
      ArrangedHasSameKeys(fields);
      CanonicalIsWellFormed(v.value);
      assert DistinctKeys(r);
      hide Find, Arrange, Canonical, CanonicalFields;
      if HasKey(fields, key) {
        var j :| 0 <= j < |fields| && fields[j].key == key;
        var i :| 0 <= i < |r| && r[i].key == key;
        FindMember(fields, j);
        FindMember(r, i);
        ArrangedValue(fields, i, j);
      }
    }
  }

  lemma {:induction false} TotalSizeWithout(buckets: seq<Field>, i: nat)
    requires i < |buckets|
    ensures TotalSize(buckets) == TotalSize(buckets[..i] + buckets[i + 1..]) + BucketSize(buckets[i])
  {
    var n := |buckets| - 1;
    if i == n {
      assert buckets[..i] + buckets[i + 1..] == buckets[..n];
    } else {
      TotalSizeWithout(buckets[..n], i);
      assert buckets[..n][..i] + buckets[..n][i + 1..] + [buckets[n]] == buckets[..i] + buckets[i + 1..];
      TotalSizeAppend(buckets[..n][..i] + buckets[..n][i + 1..], buckets[n]);
    }
  }

  lemma {:induction false} TotalSizeForgetsOrder(a: seq<Field>, b: seq<Field>)
    requires multiset(a) == multiset(b)
    ensures TotalSize(a) == TotalSize(b)
  {
    SameMultisetSameMembers(a, b);
    if a != [] {
      hide TotalSize;
      assert a[0] in a;
      var i :| 0 <= i < |b| && b[i] == a[0];
      var without := b[..i] + b[i + 1..];
      assert multiset(a[1..]) == multiset(without) by {
        MultisetWithout(b, i);
        TailMultiset(a);
      }
      TotalSizeWithout(b, i);
      TotalSizeWithout(a, 0);
      assert a[..0] + a[1..] == a[1..];
      TotalSizeForgetsOrder(a[1..], without);
    }
  }

  lemma {:induction false} TotalSizeCanonical(buckets: seq<Field>)
    ensures TotalSize(CanonicalFields(buckets)) == TotalSize(buckets)
  {
    if buckets != [] {
      var n := |buckets| - 1;
      TotalSizeCanonical(buckets[..n]);
      assert CanonicalFields(buckets)[..n] == CanonicalFields(buckets[..n]);
    }
  }

  lemma ValidBucketsCanonical(buckets: seq<Field>)
    ensures ValidBuckets(Arrange(CanonicalFields(buckets))) <==> ValidBuckets(buckets)
    ensures |Arrange(CanonicalFields(buckets))| == |buckets|
  {
    var c := CanonicalFields(buckets);
    var r := Arrange(c);
    ArrangeIsPermutation(c);
    hide Arrange, CanonicalFields, TotalSize;
    TotalSizeForgetsOrder(r, c);
    TotalSizeCanonical(buckets);
    assert forall i | 0 <= i < |c| :: ValidBucket(c[i]) <==> ValidBucket(buckets[i]);
    if forall f | f in c :: ValidBucket(f) {
      forall i | 0 <= i < |buckets| ensures ValidBucket(buckets[i]) {
        assert c[i] in c;
      }
    }
    if forall f | f in buckets :: ValidBucket(f) {
      forall i | 0 <= i < |c| ensures ValidBucket(c[i]) {
        assert buckets[i] in buckets;
      }
    }
    assert (forall f | f in c :: ValidBucket(f)) <==> (forall f | f in buckets :: ValidBucket(f));
  }

  lemma ValidExportCanonical(v: Option<Json>)
    requires v.Some? ==> WellFormed(v.value)
    ensures ValidExport(CanonicalOption(v)) <==> ValidExport(v)
  {
    hide Get, ValidBuckets, WellFormed, Arrange;
    GetCanonical(v, "version");
    GetCanonical(v, "sessions");
    GetCanonical(v, "memories");
    GetCanonical(v, "summaries");
    GetCanonical(v, "observations");
    if IsObject(Get(v, "observations")) {
      ValidBucketsCanonical(Buckets(v));
      assert Buckets(CanonicalOption(v)) == Arrange(CanonicalFields(Buckets(v)));
    }
  }

  lemma ValidEnvelopeCanonical(envelope: Json, digest: string -> string)
    requires WellFormed(envelope)
    ensures ValidEnvelope(Canonical(envelope), digest) <==> ValidEnvelope(envelope, digest)
  {
    var e := Some(envelope);
    assert CanonicalOption(e) == Some(Canonical(envelope));
    hide Get, ValidExport, WellFormed;
    GetCanonical(e, "schema");
    GetCanonical(e, "kind");
    GetCanonical(e, "checksum");
    GetCanonical(e, "exportData");
    GetCanonical(Get(e, "checksum"), "algorithm");
    GetCanonical(Get(e, "checksum"), "value");
    ValidExportCanonical(Get(e, "exportData"));
    if Get(e, "exportData").Some? {
      CanonicalIsIdempotent(Get(e, "exportData").value);
    }
    SameScalar(Get(e, "schema"), JNum("1"));
    SameScalar(Get(e, "kind"), JStr(KIND));
    SameScalar(Get(Get(e, "checksum"), "algorithm"), JStr("sha256"));
    if Get(e, "exportData").Some? {
      SameScalar(Get(Get(e, "checksum"), "value"), JStr(digest(StableStringify(Get(e, "exportData").value))));
    }
  }

  lemma SameScalar(v: Option<Json>, scalar: Json)
    requires !scalar.JArr? && !scalar.JObj?
    ensures CanonicalOption(v) == Some(scalar) <==> v == Some(scalar)
  {
  }

  // ---------------------------------------------------------------- the main results

  /** Reordering fields, at any depth of the envelope, never changes whether it validates. */
  lemma FieldOrderIsInvisible(a: Json, b: Json, digest: string -> string)
    requires WellFormed(a) && WellFormed(b) && Equivalent(a, b)
    ensures ValidEnvelope(a, digest) <==> ValidEnvelope(b, digest)
  {
    hide ValidEnvelope, Canonical;
    EquivalentSameCanonical(a, b);
    ValidEnvelopeCanonical(a, digest);
    ValidEnvelopeCanonical(b, digest);
  }

  lemma EnvelopeFields(exportData: Json, hash: string, origin: Origin)
    ensures Get(Some(EnvelopeOf(exportData, hash, origin)), "schema") == Some(JNum("1"))
    ensures Get(Some(EnvelopeOf(exportData, hash, origin)), "kind") == Some(JStr(KIND))
    ensures Get(Some(EnvelopeOf(exportData, hash, origin)), "createdAt") == Some(origin.createdAt)
    ensures Get(Some(EnvelopeOf(exportData, hash, origin)), "source") == Some(origin.source)
    ensures Get(Some(EnvelopeOf(exportData, hash, origin)), "counts") == Some(origin.counts)
    ensures Get(Some(EnvelopeOf(exportData, hash, origin)), "exportData") == Some(exportData)
    ensures Get(Get(Some(EnvelopeOf(exportData, hash, origin)), "checksum"), "algorithm") == Some(JStr("sha256"))
    ensures Get(Get(Some(EnvelopeOf(exportData, hash, origin)), "checksum"), "value") == Some(JStr(hash))
  {
    var fields := EnvelopeOf(exportData, hash, origin).fields;
    var checksum := fields[5].value.fields;
    hide Find;
    FindMember(fields, 0);
    FindMember(fields, 1);
    FindMember(fields, 2);
    FindMember(fields, 3);
    FindMember(fields, 4);
    FindMember(fields, 5);
    FindMember(fields, 6);
    FindMember(checksum, 0);
    FindMember(checksum, 1);
  }

  /** Every envelope made from a valid export validates. */
  lemma CreatedEnvelopeValidates(exportData: Json, digest: string -> string, origin: Origin)
    requires ValidExport(Some(exportData))
    ensures ValidEnvelope(EnvelopeOf(exportData, digest(StableStringify(exportData)), origin), digest)
  {
    hide Get, ValidExport, EnvelopeOf, StableStringify;
    EnvelopeFields(exportData, digest(StableStringify(exportData)), origin);
  }

  /** Another export under the same envelope validates exactly when it is the same data up to field order, as long
      as the digest does not collide on the two. */
  lemma ChecksumProtectsTheExport(original: Json, replaced: Json, digest: string -> string, origin: Origin)
    requires WellFormed(original) && WellFormed(replaced) && ValidExport(Some(original))
    requires digest(StableStringify(original)) == digest(StableStringify(replaced))
             ==> StableStringify(original) == StableStringify(replaced)
    ensures ValidEnvelope(EnvelopeOf(replaced, digest(StableStringify(original)), origin), digest)
            <==> Equivalent(original, replaced)
  {
    var envelope := EnvelopeOf(replaced, digest(StableStringify(original)), origin);
    EnvelopeFields(replaced, digest(StableStringify(original)), origin);
    SameStringIffEquivalent(original, replaced);
    if Equivalent(original, replaced) {
      EquivalentSameCanonical(original, replaced);
      ValidExportCanonical(Some(original));
      ValidExportCanonical(Some(replaced));
      assert CanonicalOption(Some(original)) == CanonicalOption(Some(replaced));
    }
    hide Get, ValidExport, EnvelopeOf, StableStringify, Equivalent;
  }
}
