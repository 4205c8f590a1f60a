/** The consumption header profile: unit safety, fatal diagnostics and the column index. */
module ConsumptionMapping {
  import opened Wrappers
  import opened Text
  import opened SchemaResolver
  import opened HeaderResolution

  datatype PowerUnit = MW | KW

  const CONSUMER_ID := "consumer_id"
  const TIMESTAMP := "timestamp"
  const VALUE_MW := "value_mw"
  const REQUIRED_FIELDS := [CONSUMER_ID, TIMESTAMP, VALUE_MW]

  const ENERGY_LAST_TOKENS := {"mwh", "kwh", "wh", "w", "hour"}
  const KNOWN_POWER_TOKENS := {"mw", "kw"}

  function PowerToken(unit: PowerUnit): string {
    match unit
    case MW => "mw"
    case KW => "kw"
  }

  /** The three destinations, each exactly once, all required. */
  predicate ValidProfile(specs: seq<FieldSpec>) {
    && (set s | s in specs :: s.canonicalName) == {CONSUMER_ID, TIMESTAMP, VALUE_MW}
    && |specs| == 3
    && forall s :: s in specs ==> s.required
  }

  /** Split at whitespace, as `str.split()` does. */
  function Words(s: string): (r: seq<string>)
    ensures s != [] && !IsSpace(s[|s| - 1]) ==> r != []
  {
    if s == [] then []
    else
      var front, c := Words(s[..|s| - 1]), s[|s| - 1];
      if IsSpace(c) then front
      else if |s| == 1 || IsSpace(s[|s| - 2]) then front + [[c]]
      else front[..|front| - 1] + [front[|front| - 1] + [c]]
  }

  /** No word is empty or holds a whitespace character. */
  ghost predicate Solid(word: string) {
    word != [] && forall i :: 0 <= i < |word| ==> !IsSpace(word[i])
  }

  lemma {:induction false} WordStarts(front: string, c: char)
    requires !IsSpace(c) && (front == [] || IsSpace(front[|front| - 1]))
    ensures Words(front + [c]) == Words(front) + [[c]]
  {
    assert (front + [c])[..|front|] == front;
  }

  lemma {:induction false} WordGrows(front: string, c: char, before: seq<string>, word: string)
    requires !IsSpace(c) && front != [] && !IsSpace(front[|front| - 1]) && Words(front) == before + [word]
    ensures Words(front + [c]) == before + [word + [c]]
  {
    assert (front + [c])[..|front|] == front;
    assert (before + [word])[..|before|] == before;
  }

  lemma {:induction false} WordsOfSolid(front: string, word: string)
    requires Solid(word) && (front == [] || IsSpace(front[|front| - 1]))
    ensures Words(front + word) == Words(front) + [word]
    decreases |word|
  {
    hide Words, IsSpace;
    var k := |word| - 1;
    var start, c := word[..k], word[k];
    assert word == start + [c];
    if k == 0 {
      assert word == [c];
      WordStarts(front, c);
    } else {
      SolidStart(start, c);
      WordsOfSolid(front, start);
      WordGrows(front + start, c, Words(front), start);
      assert front + word == (front + start) + [c];
    }
  }

  lemma {:induction false} SolidStart(start: string, c: char)
    requires Solid(start + [c]) && start != []
    ensures Solid(start) && !IsSpace(c) && !IsSpace(start[|start| - 1])
  {
    hide IsSpace;
    assert (start + [c])[|start|] == c && forall i :: 0 <= i < |start| ==> (start + [c])[i] == start[i];
  }

  /**
   * The three facts that fix splitting: no words in nothing, whitespace ends a word and adds none, and a
   * solid text standing at the start or after whitespace is one more word.
   */
  lemma WordsMeaning(front: string, space: char, word: string)
    requires IsSpace(space) && Solid(word)
    ensures Words([]) == [] && Words(word) == [word]
    ensures Words(front + [space]) == Words(front)
    ensures Words(front + [space] + word) == Words(front) + [word]
  {
    assert (front + [space])[..|front|] == front;
    WordsOfSolid(front + [space], word);
    WordsOfSolid([], word);
    assert [] + word == word;
  }

  predicate IsEnergyLike(tokens: seq<string>) {
    tokens != [] &&
    (tokens[|tokens| - 1] in ENERGY_LAST_TOKENS || (|tokens| >= 2 && tokens[|tokens| - 2..] == ["mw", "h"]))
  }

  predicate ClaimsConflictingUnit(tokens: seq<string>, expected: string) {
    tokens != [] &&
    (IsEnergyLike(tokens) || (tokens[|tokens| - 1] in KNOWN_POWER_TOKENS && tokens[|tokens| - 1] != expected))
  }

  function Downgrade(r: Resolution): Resolution {
    r.(status := Unresolved, canonical := None, how := None)
  }

  function HeaderUnitPolicy(r: Resolution, expected: string): Resolution {
    if !ResolvesTo(r, VALUE_MW) then r
    else
      var tokens := Words(r.normalized);
      var last := if tokens == [] then "" else tokens[|tokens| - 1];
      if r.how == Some(Fuzzy) then
        if last != expected || IsEnergyLike(tokens) then Downgrade(r) else r
      else if ClaimsConflictingUnit(tokens, expected) then Downgrade(r)
      else r
  }

  function Policed(resolutions: seq<Resolution>, unit: PowerUnit): seq<Resolution> {
    Map(r => HeaderUnitPolicy(r, PowerToken(unit)), resolutions)
  }

  function SafeSchema(schema: Schema, unit: PowerUnit): Schema {
    var policed := Policed(schema.resolutions, unit);
    Schema(policed, MissingAmong(policed, REQUIRED_FIELDS), CollisionsOf(policed))
  }

  method ApplyUnitSafety(schema: Schema, unit: PowerUnit) returns (safe: Schema)
    ensures safe == SafeSchema(schema, unit)
    ensures |safe.resolutions| == |schema.resolutions|
    ensures forall i :: 0 <= i < |safe.resolutions| ==> Polices(schema.resolutions[i], safe.resolutions[i], unit)
  {
    UnitSafetyExact(schema, unit);
    safe := SummarizeSchema(Policed(schema.resolutions, unit), REQUIRED_FIELDS);
  }

  // ---------- diagnostics ----------

  datatype Code =
    | MissingRequiredField | SchemaAmbiguous | UnresolvedColumn | FuzzyFieldResolution | SchemaCollision

  datatype Finding = Finding(code: Code, field: Option<string>)

  predicate IsFatal(f: Finding) {
    f.code in {MissingRequiredField, SchemaAmbiguous, SchemaCollision}
  }

  function ColumnFinding(r: Resolution): seq<Finding> {
    match r.status
    case Ambiguous => [Finding(SchemaAmbiguous, None)]
    case Unresolved => [Finding(UnresolvedColumn, None)]
    case Resolved => if r.how == Some(Fuzzy) && r.canonical.Some? then [Finding(FuzzyFieldResolution, r.canonical)] else []
  }

  function ColumnFindings(resolutions: seq<Resolution>): seq<Finding> {
    if resolutions == [] then []
    else ColumnFindings(resolutions[..|resolutions| - 1]) + ColumnFinding(resolutions[|resolutions| - 1])
  }

  function MissingFindings(missing: seq<string>): seq<Finding> {
    Map(n => Finding(MissingRequiredField, Some(n)), missing)
  }

  function CollisionFindings(collisions: seq<Collision>): seq<Finding> {
    Map((c: Collision) => Finding(SchemaCollision, Some(c.field)), collisions)
  }

  /** Everything reported about a schema, in order. */
  function SchemaFindings(schema: Schema): seq<Finding> {
    MissingFindings(schema.missing) + ColumnFindings(schema.resolutions) + CollisionFindings(schema.collisions)
  }

  /** The findings that refuse the file. */
  function FatalFindings(schema: Schema): seq<Finding> {
    Filter(IsFatal, SchemaFindings(schema))
  }

  lemma {:induction false} AmbiguousIsFound(resolutions: seq<Resolution>)
    ensures (exists f :: f in ColumnFindings(resolutions) && IsFatal(f)) <==>
              exists r :: r in resolutions && r.status == Ambiguous
  {
    if resolutions != [] {
      var front, last := resolutions[..|resolutions| - 1], resolutions[|resolutions| - 1];
      AmbiguousIsFound(front);
      assert resolutions == front + [last];
      var found := ColumnFindings(front);
      if f :| f in ColumnFindings(resolutions) && IsFatal(f) {
        assert f in found || f in ColumnFinding(last);
      }
      if r :| r in resolutions && r.status == Ambiguous {
        if r in front {
          var f :| f in found && IsFatal(f);
          assert f in ColumnFindings(resolutions);
        } else {
          assert ColumnFinding(last)[0] in ColumnFindings(resolutions);
        }
      }
    }
  }

  /** A schema is accepted exactly when nothing is missing, ambiguous or collides. */
  lemma AcceptedMeaning(schema: Schema)
    ensures FatalFindings(schema) == [] <==>
              schema.missing == [] && schema.collisions == [] && forall r :: r in schema.resolutions ==> r.status != Ambiguous
  {
    AmbiguousIsFound(schema.resolutions);
    var all := SchemaFindings(schema);
    var missing, columns, collisions :=
      MissingFindings(schema.missing), ColumnFindings(schema.resolutions), CollisionFindings(schema.collisions);
    NoMembers(FatalFindings(schema));
    assert forall f :: f in all <==> f in missing || f in columns || f in collisions;
    if missing != [] {
      assert missing[0] in all && IsFatal(missing[0]);
    }
    if collisions != [] {
      assert collisions[0] in all && IsFatal(collisions[0]);
    }
  }

  // ---------- the column index ----------

  /** Each resolved field, with the last column that resolved to it. */
  function ColumnIndex(resolutions: seq<Resolution>): map<string, nat> {
    if resolutions == [] then map[]
    else
      var front, last := ColumnIndex(resolutions[..|resolutions| - 1]), resolutions[|resolutions| - 1];
      if last.status == Resolved && last.canonical.Some? then front[last.canonical.value := |resolutions| - 1] else front
  }

  method CanonicalColumnIndex(schema: Schema) returns (index: map<string, nat>)
    ensures index == ColumnIndex(schema.resolutions)
  {
    index := map[];
    for i := 0 to |schema.resolutions|
      invariant index == ColumnIndex(schema.resolutions[..i])
    {
      assert schema.resolutions[..i + 1][..i] == schema.resolutions[..i];
      var r := schema.resolutions[i];
      if r.status == Resolved && r.canonical.Some? {
        index := index[r.canonical.value := i];
      }
    }
    assert schema.resolutions[..|schema.resolutions|] == schema.resolutions;
  }

  lemma {:induction false} ColumnIndexMeaning(resolutions: seq<Resolution>)
    ensures forall n :: n in ColumnIndex(resolutions) ==>
              ColumnIndex(resolutions)[n] < |resolutions| && ResolvesTo(resolutions[ColumnIndex(resolutions)[n]], n)
    ensures forall i, n :: 0 <= i < |resolutions| && ResolvesTo(resolutions[i], n) ==>
              n in ColumnIndex(resolutions) && i <= ColumnIndex(resolutions)[n]
  {
    if resolutions != [] {
      ColumnIndexMeaning(resolutions[..|resolutions| - 1]);
    }
  }

  // ---------- what unit safety does ----------

  /** `after` is `before` turned into an unresolved column; what was read and scored is kept. */
  ghost predicate Downgraded(before: Resolution, after: Resolution) {
    && after.status == Unresolved && after.canonical == None && after.how == None
    && after.source == before.source && after.normalized == before.normalized
    && after.confidence == before.confidence && after.candidates == before.candidates
  }

  /** Unit safety leaves a column alone or turns a resolved power column into an unresolved one. */
  lemma UnitSafetyOnlyDowngrades(schema: Schema, unit: PowerUnit, i: nat)
    requires i < |schema.resolutions|
    ensures |SafeSchema(schema, unit).resolutions| == |schema.resolutions|
    ensures var before, after := schema.resolutions[i], SafeSchema(schema, unit).resolutions[i];
            after == before || (ResolvesTo(before, VALUE_MW) && Downgraded(before, after))
  {
  }

  /** Applying unit safety again changes nothing. */
  lemma UnitSafetyIdempotent(schema: Schema, unit: PowerUnit)
    ensures SafeSchema(SafeSchema(schema, unit), unit) == SafeSchema(schema, unit)
  {
    var once := Policed(schema.resolutions, unit);
    assert Policed(once, unit) == once;
  }

  /** The header claims no energy unit and no other power unit; a fuzzy match also ends in the expected token. */
  ghost predicate UnitSafe(r: Resolution, expected: string) {
    var tokens := Words(r.normalized);
    if tokens == [] then r.how != Some(Fuzzy)
    else
      var last := tokens[|tokens| - 1];
      && last !in {"mwh", "kwh", "wh", "w", "hour"}
      && !(|tokens| > 1 && tokens[|tokens| - 2] == "mw" && last == "h")
      && (last in {"mw", "kw"} || r.how == Some(Fuzzy) ==> last == expected)
  }

  /** What unit safety makes of one column: a power column is kept exactly when it is unit safe, any other always. */
  ghost predicate Polices(before: Resolution, after: Resolution, unit: PowerUnit) {
    if ResolvesTo(before, VALUE_MW) && !UnitSafe(before, PowerToken(unit)) then Downgraded(before, after) else after == before
  }

  /** Unit safety keeps exactly the safe columns. */
  lemma UnitSafetyExact(schema: Schema, unit: PowerUnit)
    ensures |SafeSchema(schema, unit).resolutions| == |schema.resolutions|
    ensures forall i :: 0 <= i < |schema.resolutions| ==>
              Polices(schema.resolutions[i], SafeSchema(schema, unit).resolutions[i], unit)
  {
    forall i | 0 <= i < |schema.resolutions|
      ensures Polices(schema.resolutions[i], SafeSchema(schema, unit).resolutions[i], unit)
    {
      PolicyExact(schema.resolutions[i], unit);
    }
  }

  lemma PolicyExact(r: Resolution, unit: PowerUnit)
    ensures Polices(r, HeaderUnitPolicy(r, PowerToken(unit)), unit)
  {
    hide Words;
  }

  /** Every power column that survives unit safety is unit safe. */
  lemma SurvivingPowerColumn(schema: Schema, unit: PowerUnit, i: nat)
    requires i < |schema.resolutions| && ResolvesTo(SafeSchema(schema, unit).resolutions[i], VALUE_MW)
    ensures UnitSafe(SafeSchema(schema, unit).resolutions[i], PowerToken(unit))
  {
    UnitSafetyExact(schema, unit);
  }

  /** Whatever column resolved, resolved to one of the three destinations. */
  ghost predicate Destinations(resolutions: seq<Resolution>) {
    forall i :: 0 <= i < |resolutions| && resolutions[i].status == Resolved ==>
      resolutions[i].canonical.Some? && resolutions[i].canonical.value in REQUIRED_FIELDS
  }

  lemma ResolverDestination(r: Resolver, header: string, unit: PowerUnit)
    requires ValidResolver(r) && ValidProfile(r.specs)
    ensures var resolution := HeaderUnitPolicy(ResolveField(r.rules, r.specs, r.lookup, header), PowerToken(unit));
            resolution.status == Resolved ==>
              resolution.canonical.Some? && resolution.canonical.value in REQUIRED_FIELDS
  {
    var raw := ResolveField(r.rules, r.specs, r.lookup, header);
    ResolvedIsConfigured(r, header);
    if raw.status == Resolved {
      ConfiguredIsRequired(r.specs, raw.canonical.value);
    }
  }

  lemma ConfiguredIsRequired(specs: seq<FieldSpec>, name: string)
    requires ValidProfile(specs) && exists s :: s in specs && s.canonicalName == name
    ensures name in REQUIRED_FIELDS
  {
    assert name in (set s | s in specs :: s.canonicalName);
  }

  lemma ResolverDestinations(r: Resolver, headers: seq<string>, unit: PowerUnit)
    requires ValidResolver(r) && ValidProfile(r.specs)
    ensures Destinations(Policed(ResolveAll(r, headers), unit))
  {
    var policed := Policed(ResolveAll(r, headers), unit);
    forall i | 0 <= i < |policed| && policed[i].status == Resolved
      ensures policed[i].canonical.Some? && policed[i].canonical.value in REQUIRED_FIELDS
    {
      ResolverDestination(r, headers[i], unit);
    }
  }

  /** The index names exactly the three fields, in distinct columns of the header, which are the only resolved ones. */
  ghost predicate SoundIndex(index: map<string, nat>, resolutions: seq<Resolution>) {
    && index.Keys == {CONSUMER_ID, TIMESTAMP, VALUE_MW}
    && (forall n :: n in index ==> index[n] < |resolutions| && ResolvesTo(resolutions[index[n]], n))
    && (forall m, n :: m in index && n in index && m != n ==> index[m] != index[n])
    && (forall i :: 0 <= i < |resolutions| && resolutions[i].status == Resolved ==>
          exists n :: n in index && index[n] == i)
  }

  /** If a schema of the resolver survives with no fatal finding, its column index is sound. */
  lemma AcceptedSchemaSound(r: Resolver, headers: seq<string>, schema: Schema, unit: PowerUnit)
    requires ValidResolver(r) && ValidProfile(r.specs) && schema.resolutions == ResolveAll(r, headers)
    requires FatalFindings(SafeSchema(schema, unit)) == []
    ensures SoundIndex(ColumnIndex(SafeSchema(schema, unit).resolutions), SafeSchema(schema, unit).resolutions)
    ensures var safe := SafeSchema(schema, unit).resolutions;
            VALUE_MW in ColumnIndex(safe) && UnitSafe(safe[ColumnIndex(safe)[VALUE_MW]], PowerToken(unit))
  {
    var safe := SafeSchema(schema, unit);
    AcceptedMeaning(safe);
    ResolverDestinations(r, headers, unit);
    AcceptedIndex(safe.resolutions);
    SurvivingPowerColumn(schema, unit, ColumnIndex(safe.resolutions)[VALUE_MW]);
  }

  lemma AcceptedIndex(resolutions: seq<Resolution>)
    requires Destinations(resolutions)
    requires MissingAmong(resolutions, REQUIRED_FIELDS) == [] && CollisionsOf(resolutions) == []
    ensures SoundIndex(ColumnIndex(resolutions), resolutions)
  {
    var index := ColumnIndex(resolutions);
    ColumnIndexMeaning(resolutions);
    NoCollision(resolutions);
    NothingMissing(resolutions, REQUIRED_FIELDS);
    hide ColumnIndex, CollisionsOf, MissingAmong, SourcesOf, ResolvedNames;
    forall n | n in REQUIRED_FIELDS ensures n in index {
      SourcesNonempty(resolutions, n);
    }
    forall n | n in index ensures n in {CONSUMER_ID, TIMESTAMP, VALUE_MW} {
      assert resolutions[index[n]].canonical.value in REQUIRED_FIELDS;
    }
    assert CONSUMER_ID in REQUIRED_FIELDS && TIMESTAMP in REQUIRED_FIELDS && VALUE_MW in REQUIRED_FIELDS;
    forall i | 0 <= i < |resolutions| && resolutions[i].status == Resolved
      ensures exists n :: n in index && index[n] == i
    {
      var n := resolutions[i].canonical.value;
      assert n in index && ResolvesTo(resolutions[index[n]], n);
      if i < index[n] {
        TwoColumnsCollide(resolutions, n, i, index[n]);
      }
    }
  }
}
