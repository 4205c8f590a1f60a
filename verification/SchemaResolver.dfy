/** Deterministic header resolution: exact tokens first, then a fuzzy score with an ambiguity margin. */
module SchemaResolver {
  import opened Wrappers

  datatype FieldSpec = FieldSpec(canonicalName: string, aliases: seq<string>, required: bool)

  datatype Candidate = Candidate(field: string, confidence: real, representation: string)

  datatype Status = Resolved | Ambiguous | Unresolved

  datatype Method = Exact | Fuzzy

  datatype Resolution = Resolution(
    source: string, normalized: string, status: Status, canonical: Option<string>,
    how: Option<Method>, confidence: real, candidates: seq<Candidate>)

  /** Header normalisation and the similarity score are taken as given; the score lies in [0, 1]. */
  datatype Rules = Rules(
    normalize: string -> string, score: (string, string) -> real, threshold: real, margin: real)

  ghost predicate Scored(rules: Rules) {
    forall a, b :: 0.0 <= rules.score(a, b) <= 1.0
  }

  /** The normalised tokens that name a field: its canonical name and its aliases. */
  predicate Owns(rules: Rules, spec: FieldSpec, token: string) {
    token == rules.normalize(spec.canonicalName) || exists a :: a in spec.aliases && rules.normalize(a) == token
  }

  /** Position of the first alias among the first `n` that normalises to `token`, or `n`. */
  function FirstAlias(rules: Rules, spec: FieldSpec, token: string, n: nat): (k: nat)
    requires n <= |spec.aliases|
    ensures k <= n
    ensures k < n ==> rules.normalize(spec.aliases[k]) == token
    ensures forall i :: 0 <= i < k ==> rules.normalize(spec.aliases[i]) != token
  {
    if n == 0 then 0
    else
      var k := FirstAlias(rules, spec, token, n - 1);
      if k < n - 1 then k else if rules.normalize(spec.aliases[n - 1]) == token then n - 1 else n
  }

  /** The spelling a token is reported under. */
  function Representation(rules: Rules, spec: FieldSpec, token: string): string {
    var k := FirstAlias(rules, spec, token, |spec.aliases|);
    if token == rules.normalize(spec.canonicalName) || k == |spec.aliases| then spec.canonicalName
    else spec.aliases[k]
  }

  /** No field has an empty token, and no token names two fields. */
  ghost predicate Coherent(rules: Rules, specs: seq<FieldSpec>) {
    && (forall s :: s in specs ==> !Owns(rules, s, ""))
    && (forall i, j, token :: 0 <= i < j < |specs| ==> !(Owns(rules, specs[i], token) && Owns(rules, specs[j], token)))
  }

  type Lookup = map<string, (string, string)>

  /** The lookup holds each token under its one owner. */
  ghost predicate IsLookup(rules: Rules, specs: seq<FieldSpec>, lookup: Lookup) {
    && (forall s, token :: s in specs && Owns(rules, s, token) ==>
          token in lookup && lookup[token] == (s.canonicalName, Representation(rules, s, token)))
    && (forall token :: token in lookup ==> exists s :: s in specs && Owns(rules, s, token))
  }

  /** What a spec is scored against: each of its tokens once, with the first spelling that produced it. */
  function MatchTargets(rules: Rules, spec: FieldSpec, n: nat): seq<(string, string)>
    requires n <= |spec.aliases|
  {
    if n == 0 then [(rules.normalize(spec.canonicalName), spec.canonicalName)]
    else
      var front, alias := MatchTargets(rules, spec, n - 1), spec.aliases[n - 1];
      var token := rules.normalize(alias);
      if token == rules.normalize(spec.canonicalName) || FirstAlias(rules, spec, token, n - 1) < n - 1 then front
      else front + [(token, alias)]
  }

  function Targets(rules: Rules, spec: FieldSpec): seq<(string, string)> {
    MatchTargets(rules, spec, |spec.aliases|)
  }

  // ---------- building the index ----------

  /** All canonical names are registered, under themselves. */
  ghost predicate NamesRegistered(rules: Rules, specs: seq<FieldSpec>, lookup: Lookup, n: nat)
    requires n <= |specs|
  {
    && (forall i :: 0 <= i < n ==>
          && rules.normalize(specs[i].canonicalName) in lookup
          && lookup[rules.normalize(specs[i].canonicalName)] == (specs[i].canonicalName, specs[i].canonicalName))
    && (forall i, j :: 0 <= i < j < n ==>
          rules.normalize(specs[i].canonicalName) != rules.normalize(specs[j].canonicalName))
    && (forall i :: 0 <= i < n ==> rules.normalize(specs[i].canonicalName) != "")
  }

  /** No canonical name normalises to nothing, and no two to the same token. */
  ghost predicate NamesUsable(rules: Rules, specs: seq<FieldSpec>) {
    && (forall i :: 0 <= i < |specs| ==> rules.normalize(specs[i].canonicalName) != "")
    && (forall i, j :: 0 <= i < j < |specs| ==>
          rules.normalize(specs[i].canonicalName) != rules.normalize(specs[j].canonicalName))
  }

  lemma BlankName(rules: Rules, specs: seq<FieldSpec>, i: nat)
    requires i < |specs| && rules.normalize(specs[i].canonicalName) == ""
    ensures !NamesUsable(rules, specs) && !Coherent(rules, specs)
  {
    assert Owns(rules, specs[i], "") && specs[i] in specs;
  }

  lemma NamesClash(rules: Rules, specs: seq<FieldSpec>, k: nat, i: nat)
    requires k < i < |specs| && rules.normalize(specs[k].canonicalName) == rules.normalize(specs[i].canonicalName)
    ensures !NamesUsable(rules, specs) && !Coherent(rules, specs)
  {
    var token := rules.normalize(specs[i].canonicalName);
    assert Owns(rules, specs[k], token) && Owns(rules, specs[i], token);
  }

  method RegisterNames(rules: Rules, specs: seq<FieldSpec>) returns (r: Option<Lookup>)
    ensures r.Some? <==> NamesUsable(rules, specs)
    ensures r.Some? ==> NamesRegistered(rules, specs, r.value, |specs|)
    ensures r.Some? ==> forall t :: t in r.value ==>
              exists i :: 0 <= i < |specs| && t == rules.normalize(specs[i].canonicalName)
    ensures r.None? ==> !Coherent(rules, specs)
  {
    hide Coherent, Owns;
    var lookup: Lookup := map[];
    for i := 0 to |specs|
      invariant NamesRegistered(rules, specs, lookup, i)
      invariant forall t :: t in lookup ==> exists k :: 0 <= k < i && t == rules.normalize(specs[k].canonicalName)
    {
      var token := rules.normalize(specs[i].canonicalName);
      if token == "" {
        BlankName(rules, specs, i);
        return None;
      }
      if token in lookup {
        ghost var k :| 0 <= k < i && token == rules.normalize(specs[k].canonicalName);
        NamesClash(rules, specs, k, i);
        return None;
      }
      lookup := lookup[token := (specs[i].canonicalName, specs[i].canonicalName)];
    }
    r := Some(lookup);
  }

  /** The first `n` aliases of `spec` are registered under its name. */
  ghost predicate AliasesRegistered(rules: Rules, spec: FieldSpec, lookup: Lookup, n: nat)
    requires n <= |spec.aliases|
  {
    && rules.normalize(spec.canonicalName) in lookup
    && lookup[rules.normalize(spec.canonicalName)] == (spec.canonicalName, spec.canonicalName)
    && forall j :: 0 <= j < n ==>
         && rules.normalize(spec.aliases[j]) != ""
         && rules.normalize(spec.aliases[j]) in lookup
         && lookup[rules.normalize(spec.aliases[j])].0 == spec.canonicalName
  }

  /** Every entry names a spec that owns the token, under the spelling that spec reports. */
  ghost predicate EntriesOwned(rules: Rules, specs: seq<FieldSpec>, lookup: Lookup) {
    forall t :: t in lookup ==> exists s :: s in specs && Owns(rules, s, t) &&
                                            lookup[t] == (s.canonicalName, Representation(rules, s, t))
  }

  ghost predicate Grows(before: Lookup, after: Lookup) {
    forall t :: t in before ==> t in after && after[t] == before[t]
  }

  ghost predicate DistinctNames(specs: seq<FieldSpec>) {
    forall s, t :: s in specs && t in specs && s.canonicalName == t.canonicalName ==> s == t
  }

  /** A token met for the first time is registered under the alias that produced it. */
  lemma RegisterAlias(rules: Rules, specs: seq<FieldSpec>, spec: FieldSpec, lookup: Lookup, j: nat, token: string)
    requires spec in specs && j < |spec.aliases| && AliasesRegistered(rules, spec, lookup, j)
    requires EntriesOwned(rules, specs, lookup)
    requires token == rules.normalize(spec.aliases[j]) && token != "" && token !in lookup
    ensures EntriesOwned(rules, specs, lookup[token := (spec.canonicalName, spec.aliases[j])])
    ensures AliasesRegistered(rules, spec, lookup[token := (spec.canonicalName, spec.aliases[j])], j + 1)
  {
    var after := lookup[token := (spec.canonicalName, spec.aliases[j])];
    assert FirstAlias(rules, spec, token, |spec.aliases|) == j;
    forall t | t in after
      ensures exists s :: s in specs && Owns(rules, s, t) && after[t] == (s.canonicalName, Representation(rules, s, t))
    {
      if t == token {
        assert spec.aliases[j] in spec.aliases && Owns(rules, spec, token);
      } else {
        var s :| s in specs && Owns(rules, s, t) && lookup[t] == (s.canonicalName, Representation(rules, s, t));
      }
    }
  }

  /** Register a token for a field; None if it already names another one. */
  function RegisterExact(lookup: Lookup, token: string, name: string, representation: string): Option<Lookup> {
    if token !in lookup then Some(lookup[token := (name, representation)])
    else if lookup[token].0 != name then None
    else Some(lookup)
  }

  lemma RegisterStep(rules: Rules, specs: seq<FieldSpec>, spec: FieldSpec, lookup: Lookup, j: nat, after: Lookup)
    requires spec in specs && j < |spec.aliases| && AliasesRegistered(rules, spec, lookup, j)
    requires EntriesOwned(rules, specs, lookup)
    requires rules.normalize(spec.aliases[j]) != ""
    requires RegisterExact(lookup, rules.normalize(spec.aliases[j]), spec.canonicalName, spec.aliases[j]) == Some(after)
    ensures Grows(lookup, after)
    ensures EntriesOwned(rules, specs, after)
    ensures AliasesRegistered(rules, spec, after, j + 1)
  {
    var token := rules.normalize(spec.aliases[j]);
    if token !in lookup {
      RegisterAlias(rules, specs, spec, lookup, j, token);
    }
  }

  /** A token that cannot be registered names two fields. */
  lemma RegisterConflict(rules: Rules, specs: seq<FieldSpec>, spec: FieldSpec, lookup: Lookup, j: nat)
    requires spec in specs && j < |spec.aliases| && EntriesOwned(rules, specs, lookup)
    requires RegisterExact(lookup, rules.normalize(spec.aliases[j]), spec.canonicalName, spec.aliases[j]).None?
    ensures !Coherent(rules, specs)
  {
    var token := rules.normalize(spec.aliases[j]);
    var s :| s in specs && Owns(rules, s, token) && lookup[token] == (s.canonicalName, Representation(rules, s, token));
    assert spec.aliases[j] in spec.aliases && Owns(rules, spec, token);
    SharedToken(rules, specs, s, spec, token);
  }

  lemma EmptyTokenIsIncoherent(rules: Rules, specs: seq<FieldSpec>, spec: FieldSpec, j: nat)
    requires spec in specs && j < |spec.aliases| && rules.normalize(spec.aliases[j]) == ""
    ensures !Coherent(rules, specs)
  {
    assert spec.aliases[j] in spec.aliases && Owns(rules, spec, "");
  }

  /** The lookup after the first `n` aliases of a spec, or None where the construction stopped. */
  function AliasLookup(rules: Rules, spec: FieldSpec, before: Lookup, n: nat): Option<Lookup>
    requires n <= |spec.aliases|
  {
    if n == 0 then Some(before)
    else
      var lookup, token := AliasLookup(rules, spec, before, n - 1), rules.normalize(spec.aliases[n - 1]);
      if lookup.None? || token == "" then None
      else RegisterExact(lookup.value, token, spec.canonicalName, spec.aliases[n - 1])
  }

  /** Registering the aliases of a spec keeps the lookup sound. */
  lemma {:induction false} AliasLookupSound(rules: Rules, specs: seq<FieldSpec>, spec: FieldSpec, before: Lookup,
                                            n: nat, after: Lookup)
    requires spec in specs && n <= |spec.aliases|
    requires AliasesRegistered(rules, spec, before, 0) && EntriesOwned(rules, specs, before)
    requires AliasLookup(rules, spec, before, n) == Some(after)
    ensures Grows(before, after)
    ensures EntriesOwned(rules, specs, after)
    ensures AliasesRegistered(rules, spec, after, n)
  {
    hide EntriesOwned, Grows, AliasesRegistered, RegisterExact;
    GrowsSelf(before);
    if n > 0 {
      var lookup := AliasLookup(rules, spec, before, n - 1).value;
      AliasLookupSound(rules, specs, spec, before, n - 1, lookup);
      RegisterStep(rules, specs, spec, lookup, n - 1, after);
      GrowsTransitive(before, lookup, after);
    }
  }

  /** Stopping means that the specs are incoherent. */
  lemma {:induction false} AliasLookupIncoherent(rules: Rules, specs: seq<FieldSpec>, spec: FieldSpec, before: Lookup, n: nat)
    requires spec in specs && n <= |spec.aliases|
    requires AliasesRegistered(rules, spec, before, 0) && EntriesOwned(rules, specs, before)
    requires AliasLookup(rules, spec, before, n).None?
    ensures !Coherent(rules, specs)
  {
    match AliasLookup(rules, spec, before, n - 1)
    case None => AliasLookupIncoherent(rules, specs, spec, before, n - 1);
    case Some(lookup) =>
      AliasLookupSound(rules, specs, spec, before, n - 1, lookup);
      if rules.normalize(spec.aliases[n - 1]) == "" {
        EmptyTokenIsIncoherent(rules, specs, spec, n - 1);
      } else {
        RegisterConflict(rules, specs, spec, lookup, n - 1);
      }
  }

  lemma {:induction false} AliasLookupStops(rules: Rules, spec: FieldSpec, before: Lookup, i: nat, n: nat)
    requires i <= n <= |spec.aliases| && AliasLookup(rules, spec, before, i).None?
    ensures AliasLookup(rules, spec, before, n).None?
  {
    if i < n {
      AliasLookupStops(rules, spec, before, i, n - 1);
    }
  }

  /** Register one spec's aliases and collect what it is scored against. */
  method IndexAliases(rules: Rules, spec: FieldSpec, before: Lookup) returns (r: Option<(seq<(string, string)>, Lookup)>)
    ensures r == match AliasLookup(rules, spec, before, |spec.aliases|)
                 case None => None
                 case Some(lookup) => Some((Targets(rules, spec), lookup))
  {
    var targets := [(rules.normalize(spec.canonicalName), spec.canonicalName)];
    var seen := {rules.normalize(spec.canonicalName)};
    var lookup := before;
    for j := 0 to |spec.aliases|
      invariant targets == MatchTargets(rules, spec, j)
      invariant forall t :: t in seen <==> t == rules.normalize(spec.canonicalName) || FirstAlias(rules, spec, t, j) < j
      invariant AliasLookup(rules, spec, before, j) == Some(lookup)
    {
      var token := rules.normalize(spec.aliases[j]);
      var registered := if token == "" then None else RegisterExact(lookup, token, spec.canonicalName, spec.aliases[j]);
      if registered.None? {
        AliasLookupStops(rules, spec, before, j + 1, |spec.aliases|);
        return None;
      }
      lookup := registered.value;
      if token !in seen {
        targets := targets + [(token, spec.aliases[j])];
        seen := seen + {token};
      }
    }
    r := Some((targets, lookup));
  }

  lemma GrowsSelf(a: Lookup)
    ensures Grows(a, a)
  {
  }

  lemma GrowsTransitive(a: Lookup, b: Lookup, c: Lookup)
    requires Grows(a, b) && Grows(b, c)
    ensures Grows(a, c)
  {
  }

  lemma SharedToken(rules: Rules, specs: seq<FieldSpec>, s: FieldSpec, t: FieldSpec, token: string)
    requires s in specs && t in specs && s != t && Owns(rules, s, token) && Owns(rules, t, token)
    ensures !Coherent(rules, specs)
  {
    var i :| 0 <= i < |specs| && specs[i] == s;
    var j :| 0 <= j < |specs| && specs[j] == t;
    assert i < j || j < i;
  }

  lemma NamesAreDistinct(rules: Rules, specs: seq<FieldSpec>, lookup: Lookup)
    requires NamesRegistered(rules, specs, lookup, |specs|)
    ensures DistinctNames(specs)
  {
    forall s, t | s in specs && t in specs && s.canonicalName == t.canonicalName ensures s == t {
      var i :| 0 <= i < |specs| && specs[i] == s;
      var j :| 0 <= j < |specs| && specs[j] == t;
      assert !(i < j) && !(j < i);
    }
  }

  lemma NamesAreOwned(rules: Rules, specs: seq<FieldSpec>, lookup: Lookup)
    requires NamesRegistered(rules, specs, lookup, |specs|)
    requires forall t :: t in lookup ==> exists i :: 0 <= i < |specs| && t == rules.normalize(specs[i].canonicalName)
    ensures EntriesOwned(rules, specs, lookup)
  {
    forall t | t in lookup
      ensures exists s :: s in specs && Owns(rules, s, t) && lookup[t] == (s.canonicalName, Representation(rules, s, t))
    {
      var i :| 0 <= i < |specs| && t == rules.normalize(specs[i].canonicalName);
      assert specs[i] in specs && Owns(rules, specs[i], t);
    }
  }

  ghost predicate AllRegistered(rules: Rules, specs: seq<FieldSpec>, lookup: Lookup, n: nat)
    requires n <= |specs|
  {
    forall i :: 0 <= i < n ==> AliasesRegistered(rules, specs[i], lookup, |specs[i].aliases|)
  }

  lemma OwnedIsRegistered(rules: Rules, spec: FieldSpec, lookup: Lookup, token: string)
    requires AliasesRegistered(rules, spec, lookup, |spec.aliases|) && Owns(rules, spec, token)
    ensures token in lookup && lookup[token].0 == spec.canonicalName
  {
    if token != rules.normalize(spec.canonicalName) {
      var a :| a in spec.aliases && rules.normalize(a) == token;
      var j :| 0 <= j < |spec.aliases| && spec.aliases[j] == a;
    }
  }

  lemma RegisteredIsCoherent(rules: Rules, specs: seq<FieldSpec>, names: Lookup, lookup: Lookup)
    requires NamesRegistered(rules, specs, names, |specs|)
    requires AllRegistered(rules, specs, lookup, |specs|)
    ensures Coherent(rules, specs)
  {
    forall s | s in specs ensures !Owns(rules, s, "") {
      var i :| 0 <= i < |specs| && specs[i] == s;
      forall a | a in s.aliases ensures rules.normalize(a) != "" {
        var j :| 0 <= j < |s.aliases| && s.aliases[j] == a;
      }
    }
    forall i, j, token | 0 <= i < j < |specs| && Owns(rules, specs[i], token)
      ensures !Owns(rules, specs[j], token)
    {
      OwnedIsRegistered(rules, specs[i], lookup, token);
      if Owns(rules, specs[j], token) {
        OwnedIsRegistered(rules, specs[j], lookup, token);
        assert false;
      }
    }
  }

  lemma RegisteredIsLookup(rules: Rules, specs: seq<FieldSpec>, lookup: Lookup)
    requires DistinctNames(specs) && AllRegistered(rules, specs, lookup, |specs|) && EntriesOwned(rules, specs, lookup)
    ensures IsLookup(rules, specs, lookup)
  {
    forall s, token | s in specs && Owns(rules, s, token)
      ensures token in lookup && lookup[token] == (s.canonicalName, Representation(rules, s, token))
    {
      var i :| 0 <= i < |specs| && specs[i] == s;
      OwnedIsRegistered(rules, s, lookup, token);
    }
  }

  datatype IndexedField = IndexedField(spec: FieldSpec, targets: seq<(string, string)>)

  /** A constructed resolver. */
  datatype Resolver = Resolver(rules: Rules, specs: seq<FieldSpec>, fields: seq<IndexedField>, lookup: Lookup)

  predicate InUnitInterval(x: real) {
    0.0 <= x <= 1.0
  }

  /** The resolver really is the index of its specs. */
  ghost predicate ValidResolver(r: Resolver) {
    && 0.0 <= r.rules.threshold <= 1.0 && 0.0 <= r.rules.margin <= 1.0
    && Coherent(r.rules, r.specs) && IsLookup(r.rules, r.specs, r.lookup)
    && FieldsOf(r.rules, r.specs, r.fields)
  }

  ghost predicate FieldsOf(rules: Rules, specs: seq<FieldSpec>, fields: seq<IndexedField>) {
    && |fields| == |specs|
    && forall i :: 0 <= i < |specs| ==> fields[i] == IndexedField(specs[i], Targets(rules, specs[i]))
  }

  /**
   * Construction succeeds exactly for thresholds within the unit interval and coherent specs: no empty
   * token, and no token naming two fields. None stands for ResolverConfigurationError.
   */
  method BuildResolver(rules: Rules, specs: seq<FieldSpec>) returns (r: Option<Resolver>)
    ensures r.Some? <==> 0.0 <= rules.threshold <= 1.0 && 0.0 <= rules.margin <= 1.0 && Coherent(rules, specs)
    ensures r.Some? ==> r.value.rules == rules && r.value.specs == specs && ValidResolver(r.value)
  {
    if !InUnitInterval(rules.threshold) || !InUnitInterval(rules.margin) {
      return None;
    }
    var names := RegisterNames(rules, specs);
    if names.None? {
      return None;
    }
    NamesAreDistinct(rules, specs, names.value);
    NamesAreOwned(rules, specs, names.value);
    var indexed := IndexSpecs(rules, specs, names.value);
    if indexed.None? {
      SpecsLookupIncoherent(rules, specs, names.value, |specs|);
      return None;
    }
    SpecsLookupSound(rules, specs, names.value, |specs|);
    RegisteredIsCoherent(rules, specs, names.value, indexed.value.1);
    RegisteredIsLookup(rules, specs, indexed.value.1);
    r := Some(Resolver(rules, specs, indexed.value.0, indexed.value.1));
  }

  /** The lookup after the aliases of the first `n` specs. */
  function SpecsLookup(rules: Rules, specs: seq<FieldSpec>, names: Lookup, n: nat): Option<Lookup>
    requires n <= |specs|
  {
    if n == 0 then Some(names)
    else
      match SpecsLookup(rules, specs, names, n - 1)
      case None => None
      case Some(lookup) => AliasLookup(rules, specs[n - 1], lookup, |specs[n - 1].aliases|)
  }

  lemma {:induction false} SpecsLookupStops(rules: Rules, specs: seq<FieldSpec>, names: Lookup, i: nat, n: nat)
    requires i <= n <= |specs| && SpecsLookup(rules, specs, names, i).None?
    ensures SpecsLookup(rules, specs, names, n).None?
  {
    if i < n {
      SpecsLookupStops(rules, specs, names, i, n - 1);
    }
  }

  /** What holds of the lookup after the first `n` specs. */
  ghost predicate LookupSound(rules: Rules, specs: seq<FieldSpec>, names: Lookup, lookup: Lookup, n: nat)
    requires n <= |specs|
  {
    Grows(names, lookup) && EntriesOwned(rules, specs, lookup) && AllRegistered(rules, specs, lookup, n)
  }

  lemma SpecStep(rules: Rules, specs: seq<FieldSpec>, names: Lookup, before: Lookup, n: nat, after: Lookup)
    requires n < |specs| && LookupSound(rules, specs, names, before, n)
    requires specs[n] in specs && AliasesRegistered(rules, specs[n], before, 0)
    requires AliasLookup(rules, specs[n], before, |specs[n].aliases|) == Some(after)
    ensures LookupSound(rules, specs, names, after, n + 1)
  {
    AliasLookupSound(rules, specs, specs[n], before, |specs[n].aliases|, after);
    GrowsTransitive(names, before, after);
    RegisteredGrows(rules, specs, before, after, n);
  }

  ghost predicate SpecsSound(rules: Rules, specs: seq<FieldSpec>, names: Lookup, n: nat)
    requires n <= |specs|
  {
    match SpecsLookup(rules, specs, names, n)
    case None => true
    case Some(lookup) => LookupSound(rules, specs, names, lookup, n)
  }

  lemma SpecsSoundStep(rules: Rules, specs: seq<FieldSpec>, names: Lookup, n: nat)
    requires 0 < n <= |specs| && SpecsSound(rules, specs, names, n - 1)
    requires NamesRegistered(rules, specs, names, |specs|)
    ensures SpecsSound(rules, specs, names, n)
  {
    hide EntriesOwned, NamesRegistered, AllRegistered, Grows;
    if SpecsLookup(rules, specs, names, n).Some? {
      var before := SpecsLookup(rules, specs, names, n - 1).value;
      NameStaysRegistered(rules, specs, names, before, n - 1);
      SpecStep(rules, specs, names, before, n - 1, SpecsLookup(rules, specs, names, n).value);
    }
  }

  lemma {:induction false} SpecsLookupSound(rules: Rules, specs: seq<FieldSpec>, names: Lookup, n: nat)
    requires n <= |specs| && EntriesOwned(rules, specs, names)
    requires NamesRegistered(rules, specs, names, |specs|)
    ensures SpecsSound(rules, specs, names, n)
  {
    hide EntriesOwned, NamesRegistered;
    if n > 0 {
      hide SpecsSound;
      SpecsLookupSound(rules, specs, names, n - 1);
      SpecsSoundStep(rules, specs, names, n);
    }
  }

  lemma SpecConflict(rules: Rules, specs: seq<FieldSpec>, names: Lookup, before: Lookup, n: nat)
    requires n < |specs| && LookupSound(rules, specs, names, before, n)
    requires specs[n] in specs && AliasesRegistered(rules, specs[n], before, 0)
    requires AliasLookup(rules, specs[n], before, |specs[n].aliases|).None?
    ensures !Coherent(rules, specs)
  {
    AliasLookupIncoherent(rules, specs, specs[n], before, |specs[n].aliases|);
  }

  lemma {:induction false} SpecsLookupIncoherent(rules: Rules, specs: seq<FieldSpec>, names: Lookup, n: nat)
    requires n <= |specs| && EntriesOwned(rules, specs, names)
    requires NamesRegistered(rules, specs, names, |specs|)
    requires SpecsLookup(rules, specs, names, n).None?
    ensures !Coherent(rules, specs)
  {
    hide EntriesOwned, Coherent, NamesRegistered, AllRegistered, Grows;
    SpecsLookupSound(rules, specs, names, n - 1);
    match SpecsLookup(rules, specs, names, n - 1)
    case None => SpecsLookupIncoherent(rules, specs, names, n - 1);
    case Some(before) =>
      NameStaysRegistered(rules, specs, names, before, n - 1);
      SpecConflict(rules, specs, names, before, n - 1);
  }

  method IndexSpecs(rules: Rules, specs: seq<FieldSpec>, names: Lookup) returns (r: Option<(seq<IndexedField>, Lookup)>)
    ensures r.None? <==> SpecsLookup(rules, specs, names, |specs|).None?
    ensures r.Some? ==>
              && SpecsLookup(rules, specs, names, |specs|) == Some(r.value.1)
              && FieldsOf(rules, specs, r.value.0)
  {
    var lookup := names;
    var fields: seq<IndexedField> := [];
    for i := 0 to |specs|
      invariant SpecsLookup(rules, specs, names, i) == Some(lookup)
      invariant |fields| == i
      invariant forall k :: 0 <= k < i ==> fields[k] == IndexedField(specs[k], Targets(rules, specs[k]))
    {
      var indexed := IndexAliases(rules, specs[i], lookup);
      if indexed.None? {
        SpecsLookupStops(rules, specs, names, i + 1, |specs|);
        return None;
      }
      lookup := indexed.value.1;
      fields := fields + [IndexedField(specs[i], indexed.value.0)];
    }
    r := Some((fields, lookup));
  }

  lemma NameStaysRegistered(rules: Rules, specs: seq<FieldSpec>, names: Lookup, lookup: Lookup, i: nat)
    requires i < |specs| && NamesRegistered(rules, specs, names, |specs|) && Grows(names, lookup)
    ensures specs[i] in specs && AliasesRegistered(rules, specs[i], lookup, 0)
  {
  }

  /** Later registrations keep the earlier ones. */
  lemma RegisteredGrows(rules: Rules, specs: seq<FieldSpec>, before: Lookup, after: Lookup, n: nat)
    requires n < |specs| && AllRegistered(rules, specs, before, n) && Grows(before, after)
    requires AliasesRegistered(rules, specs[n], after, |specs[n].aliases|)
    ensures AllRegistered(rules, specs, after, n + 1)
  {
    forall i | 0 <= i < n ensures AliasesRegistered(rules, specs[i], after, |specs[i].aliases|) {
      assert AliasesRegistered(rules, specs[i], before, |specs[i].aliases|);
    }
  }

  /** Every normalised token has one owner. */
  lemma TokenHasOneOwner(r: Resolver, token: string)
    requires ValidResolver(r)
    ensures token in r.lookup <==> exists s :: s in r.specs && Owns(r.rules, s, token)
    ensures forall s, t :: s in r.specs && t in r.specs && Owns(r.rules, s, token) && Owns(r.rules, t, token) ==> s == t
  {
    forall s, t | s in r.specs && t in r.specs && Owns(r.rules, s, token) && Owns(r.rules, t, token)
      ensures s == t
    {
      if s != t {
        SharedToken(r.rules, r.specs, s, t, token);
        assert false;
      }
    }
  }
}
