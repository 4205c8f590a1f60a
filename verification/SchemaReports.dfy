/** What a header is reported for: its collisions, and every finding of a schema after unit safety. */
module SchemaReports {
  import opened Wrappers
  import opened Ordering
  import opened SchemaResolver
  import opened HeaderResolution
  import opened ConsumptionMapping

  // ---------- collisions ----------

  /** `columns` are, in order, exactly the columns that resolve to `name`. */
  ghost predicate Lists(resolutions: seq<Resolution>, name: string, columns: seq<nat>) {
    && (forall i, j :: 0 <= i < j < |columns| ==> columns[i] < columns[j])
    && (forall k :: 0 <= k < |columns| ==> columns[k] < |resolutions| && ResolvesTo(resolutions[columns[k]], name))
    && (forall i :: 0 <= i < |resolutions| && ResolvesTo(resolutions[i], name) ==> i in columns)
  }

  /** `sources` are the headers at `columns`. */
  ghost predicate HeadersAt(resolutions: seq<Resolution>, columns: seq<nat>, sources: seq<string>) {
    && |sources| == |columns|
    && forall k :: 0 <= k < |columns| ==> columns[k] < |resolutions| && sources[k] == resolutions[columns[k]].source
  }

  lemma {:induction false} ListSkip(front: seq<Resolution>, last: Resolution, name: string, columns: seq<nat>,
                                    sources: seq<string>)
    requires Lists(front, name, columns) && HeadersAt(front, columns, sources) && !ResolvesTo(last, name)
    ensures Lists(front + [last], name, columns) && HeadersAt(front + [last], columns, sources)
  {
    hide ResolvesTo;
  }

  lemma {:induction false} ListMore(front: seq<Resolution>, last: Resolution, name: string, columns: seq<nat>,
                                    sources: seq<string>)
    requires Lists(front, name, columns) && HeadersAt(front, columns, sources) && ResolvesTo(last, name)
    ensures Lists(front + [last], name, columns + [|front|])
    ensures HeadersAt(front + [last], columns + [|front|], sources + [last.source])
  {
    hide ResolvesTo;
  }

  /** The sources of a field are the headers of its columns, in column order. */
  lemma {:induction false} SourcesMeaning(resolutions: seq<Resolution>, name: string) returns (columns: seq<nat>)
    ensures Lists(resolutions, name, columns) && HeadersAt(resolutions, columns, SourcesOf(resolutions, name))
  {
    columns := [];
    if resolutions != [] {
      var front, last := resolutions[..|resolutions| - 1], resolutions[|resolutions| - 1];
      columns := SourcesMeaning(front, name);
      hide Lists, HeadersAt, ResolvesTo;
      assert resolutions == front + [last];
      if ResolvesTo(last, name) {
        ListMore(front, last, name, columns, SourcesOf(front, name));
        columns := columns + [|front|];
      } else {
        ListSkip(front, last, name, columns, SourcesOf(front, name));
        assert SourcesOf(resolutions, name) == SourcesOf(front, name);
      }
    }
  }

  /** Two columns resolve to `name`. */
  ghost predicate Clashes(resolutions: seq<Resolution>, name: string) {
    exists i, j :: 0 <= i < j < |resolutions| && ResolvesTo(resolutions[i], name) && ResolvesTo(resolutions[j], name)
  }

  lemma ClashMeaning(resolutions: seq<Resolution>, name: string)
    ensures |SourcesOf(resolutions, name)| > 1 <==> Clashes(resolutions, name)
  {
    var columns := SourcesMeaning(resolutions, name);
    if |columns| > 1 {
      assert columns[0] < columns[1];
    }
    if i, j :| 0 <= i < j < |resolutions| && ResolvesTo(resolutions[i], name) && ResolvesTo(resolutions[j], name) {
      TwoColumnsCollide(resolutions, name, i, j);
    }
  }

  lemma {:induction false} CollisionMembers(resolutions: seq<Resolution>, names: seq<string>)
    ensures forall c :: c in CollisionsAmong(resolutions, names) <==>
              c.field in names && |SourcesOf(resolutions, c.field)| > 1 && c.sources == SourcesOf(resolutions, c.field)
  {
    if names != [] {
      CollisionMembers(resolutions, names[..|names| - 1]);
      assert names == names[..|names| - 1] + [names[|names| - 1]];
    }
  }

  /** A collision is reported for exactly the fields two columns resolve to, with all their headers in column order. */
  lemma CollisionsMeaning(resolutions: seq<Resolution>)
    ensures forall c :: c in CollisionsOf(resolutions) <==>
              Clashes(resolutions, c.field) && c.sources == SourcesOf(resolutions, c.field)
  {
    var names := ResolvedNames(resolutions);
    SortedNames(names);
    CollisionMembers(resolutions, Sort(StringLe, names));
    hide SourcesOf, ResolvedNames, Clashes;
    forall n ensures |SourcesOf(resolutions, n)| > 1 <==> Clashes(resolutions, n)
             ensures |SourcesOf(resolutions, n)| > 1 ==> n in names
    {
      ClashMeaning(resolutions, n);
      SourcesNonempty(resolutions, n);
    }
  }

  /** Collisions are listed by field name, each field once. */
  ghost predicate FieldsAscend(collisions: seq<Collision>) {
    forall i, j :: 0 <= i < j < |collisions| ==>
      StringLe(collisions[i].field, collisions[j].field) && collisions[i].field != collisions[j].field
  }

  lemma {:induction false} CollisionsAscend(resolutions: seq<Resolution>, names: seq<string>)
    requires Sorted(StringLe, names) && Distinct(names)
    ensures FieldsAscend(CollisionsAmong(resolutions, names))
  {
    if names != [] {
      var front, last := names[..|names| - 1], names[|names| - 1];
      CollisionsAscend(resolutions, front);
      CollisionMembers(resolutions, front);
      hide SourcesOf, StringLe;
      forall n | n in front ensures StringLe(n, last) && n != last {
        var k :| 0 <= k < |front| && front[k] == n;
        assert names[k] == n;
      }
      var before := CollisionsAmong(resolutions, front);
      assert forall i :: 0 <= i < |before| ==> before[i] in before;
    }
  }

  lemma {:induction false} NamesDistinct(resolutions: seq<Resolution>)
    ensures Distinct(ResolvedNames(resolutions))
  {
    if resolutions != [] {
      NamesDistinct(resolutions[..|resolutions| - 1]);
    }
  }

  lemma {:induction false} CollisionOrder(resolutions: seq<Resolution>)
    ensures FieldsAscend(CollisionsOf(resolutions))
  {
    var names := ResolvedNames(resolutions);
    StringOrder();
    NamesDistinct(resolutions);
    DistinctPermutation(names, Sort(StringLe, names));
    CollisionsAscend(resolutions, Sort(StringLe, names));
  }

  // ---------- findings ----------

  /** The finding is deserved by the columns. */
  ghost predicate Deserved(resolutions: seq<Resolution>, f: Finding) {
    match f.code
    case MissingRequiredField =>
      f.field.Some? && f.field.value in REQUIRED_FIELDS
      && forall i :: 0 <= i < |resolutions| ==> !ResolvesTo(resolutions[i], f.field.value)
    case SchemaCollision => f.field.Some? && Clashes(resolutions, f.field.value)
    case SchemaAmbiguous => f.field.None? && exists r :: r in resolutions && r.status == Ambiguous
    case UnresolvedColumn => f.field.None? && exists r :: r in resolutions && r.status == Unresolved
    case FuzzyFieldResolution =>
      f.field.Some? && exists r :: r in resolutions && ResolvesTo(r, f.field.value) && r.how == Some(Fuzzy)
  }

  predicate IsColumnFinding(f: Finding) {
    f.code in {SchemaAmbiguous, UnresolvedColumn, FuzzyFieldResolution}
  }

  lemma {:induction false} ColumnFindingMembers(resolutions: seq<Resolution>)
    ensures forall f :: f in ColumnFindings(resolutions) <==> exists r :: r in resolutions && f in ColumnFinding(r)
  {
    if resolutions != [] {
      var front, last := resolutions[..|resolutions| - 1], resolutions[|resolutions| - 1];
      ColumnFindingMembers(front);
      hide ColumnFinding;
      assert resolutions == front + [last];
      forall f ensures f in ColumnFindings(resolutions) <==> exists r :: r in resolutions && f in ColumnFinding(r) {
        if r :| r in resolutions && f in ColumnFinding(r) {
          assert r in front || r == last;
        }
        if r :| r in front && f in ColumnFinding(r) {
          assert r in resolutions;
        }
      }
    }
  }

  /** The finding is deserved by this one column. */
  ghost predicate DeservedBy(r: Resolution, f: Finding) {
    || (r.status == Ambiguous && f == Finding(SchemaAmbiguous, None))
    || (r.status == Unresolved && f == Finding(UnresolvedColumn, None))
    || (f.code == FuzzyFieldResolution && f.field.Some? && ResolvesTo(r, f.field.value) && r.how == Some(Fuzzy))
  }

  lemma OneColumnFinding(r: Resolution, f: Finding)
    ensures f in ColumnFinding(r) <==> DeservedBy(r, f)
  {
  }

  lemma SomeColumnDeserves(resolutions: seq<Resolution>, f: Finding)
    ensures IsColumnFinding(f) && Deserved(resolutions, f) <==> exists r :: r in resolutions && DeservedBy(r, f)
  {
    if IsColumnFinding(f) && Deserved(resolutions, f) {
      var r :| r in resolutions && (f.code == FuzzyFieldResolution ==> ResolvesTo(r, f.field.value) && r.how == Some(Fuzzy))
               && (f.code == SchemaAmbiguous ==> r.status == Ambiguous) && (f.code == UnresolvedColumn ==> r.status == Unresolved);
      assert DeservedBy(r, f);
    }
  }

  /** `columns` are, in order, the columns that deserve the findings, one each. */
  ghost predicate OnePerColumn(resolutions: seq<Resolution>, findings: seq<Finding>, columns: seq<nat>) {
    && |columns| == |findings|
    && (forall i, j :: 0 <= i < j < |columns| ==> columns[i] < columns[j])
    && (forall k :: 0 <= k < |columns| ==> columns[k] < |resolutions| && DeservedBy(resolutions[columns[k]], findings[k]))
    && (forall i, f :: 0 <= i < |resolutions| && DeservedBy(resolutions[i], f) ==> i in columns)
  }

  lemma {:induction false} FindingSkip(front: seq<Resolution>, last: Resolution, findings: seq<Finding>, columns: seq<nat>)
    requires OnePerColumn(front, findings, columns) && forall f :: !DeservedBy(last, f)
    ensures OnePerColumn(front + [last], findings, columns)
  {
    hide DeservedBy;
  }

  lemma {:induction false} FindingMore(front: seq<Resolution>, last: Resolution, findings: seq<Finding>,
                                       columns: seq<nat>, f: Finding)
    requires OnePerColumn(front, findings, columns) && DeservedBy(last, f)
    ensures OnePerColumn(front + [last], findings + [f], columns + [|front|])
  {
    hide DeservedBy;
  }

  lemma {:induction false} AtMostOneFinding(r: Resolution)
    ensures ColumnFinding(r) == [] || ColumnFinding(r) == [ColumnFinding(r)[0]]
    ensures forall f :: DeservedBy(r, f) <==> f in ColumnFinding(r)
  {
    forall f ensures f in ColumnFinding(r) <==> DeservedBy(r, f) {
      OneColumnFinding(r, f);
    }
  }

  /** Each ambiguous, unresolved or guessed column is reported once, in column order. */
  lemma {:induction false} ColumnFindingsInOrder(resolutions: seq<Resolution>) returns (columns: seq<nat>)
    ensures OnePerColumn(resolutions, ColumnFindings(resolutions), columns)
  {
    columns := [];
    if resolutions != [] {
      var front, last := resolutions[..|resolutions| - 1], resolutions[|resolutions| - 1];
      columns := ColumnFindingsInOrder(front);
      AtMostOneFinding(last);
      hide ColumnFinding, DeservedBy, OnePerColumn;
      assert resolutions == front + [last];
      if ColumnFinding(last) == [] {
        FindingSkip(front, last, ColumnFindings(front), columns);
        assert ColumnFindings(resolutions) == ColumnFindings(front);
      } else {
        FindingMore(front, last, ColumnFindings(front), columns, ColumnFinding(last)[0]);
        columns := columns + [|front|];
      }
    }
  }

  lemma ColumnFindingsDeserved(resolutions: seq<Resolution>, f: Finding)
    ensures f in ColumnFindings(resolutions) <==> IsColumnFinding(f) && Deserved(resolutions, f)
  {
    ColumnFindingMembers(resolutions);
    SomeColumnDeserves(resolutions, f);
    hide *;
    forall r ensures f in ColumnFinding(r) <==> DeservedBy(r, f) {
      OneColumnFinding(r, f);
    }
  }

  lemma MissingDeserved(resolutions: seq<Resolution>, f: Finding)
    ensures f in MissingFindings(MissingAmong(resolutions, REQUIRED_FIELDS)) <==>
            f.code == MissingRequiredField && Deserved(resolutions, f)
  {
    var missing := MissingAmong(resolutions, REQUIRED_FIELDS);
    NothingMissing(resolutions, REQUIRED_FIELDS);
    assert forall i :: 0 <= i < |missing| ==> MissingFindings(missing)[i] == Finding(MissingRequiredField, Some(missing[i]));
    hide MissingAmong, SourcesOf, MissingFindings;
    if f.field.Some? {
      SourcesNonempty(resolutions, f.field.value);
    }
    if f.code == MissingRequiredField && Deserved(resolutions, f) {
      var k :| 0 <= k < |missing| && missing[k] == f.field.value;
      assert MissingFindings(missing)[k] == f;
    }
  }

  lemma CollisionDeserved(resolutions: seq<Resolution>, f: Finding)
    ensures f in CollisionFindings(CollisionsOf(resolutions)) <==> f.code == SchemaCollision && Deserved(resolutions, f)
  {
    var collisions := CollisionsOf(resolutions);
    CollisionsMeaning(resolutions);
    assert forall i :: 0 <= i < |collisions| ==>
             CollisionFindings(collisions)[i] == Finding(SchemaCollision, Some(collisions[i].field));
    hide CollisionsOf, SourcesOf, Clashes, CollisionFindings;
    if f.code == SchemaCollision && Deserved(resolutions, f) {
      var c := Collision(f.field.value, SourcesOf(resolutions, f.field.value));
      var k :| 0 <= k < |collisions| && collisions[k] == c;
      assert CollisionFindings(collisions)[k] == f;
    }
  }

  /** A schema after unit safety is reported for exactly what is wrong with, or was guessed about, its columns. */
  lemma FindingsMeaning(schema: Schema, unit: PowerUnit, f: Finding)
    ensures f in SchemaFindings(SafeSchema(schema, unit)) <==> Deserved(SafeSchema(schema, unit).resolutions, f)
  {
    var resolutions := SafeSchema(schema, unit).resolutions;
    MissingDeserved(resolutions, f);
    ColumnFindingsDeserved(resolutions, f);
    CollisionDeserved(resolutions, f);
  }

  /** `chosen` are the names at the ascending positions `at`. */
  ghost predicate PicksAt(names: seq<string>, chosen: seq<string>, at: seq<nat>) {
    && |at| == |chosen| && (forall k :: 0 <= k < |at| ==> at[k] < |names| && chosen[k] == names[at[k]])
    && (forall i, j :: 0 <= i < j < |at| ==> at[i] < at[j])
  }

  lemma {:induction false} PickMore(names: seq<string>, last: string, chosen: seq<string>, at: seq<nat>)
    requires PicksAt(names, chosen, at)
    ensures PicksAt(names + [last], chosen, at) && PicksAt(names + [last], chosen + [last], at + [|names|])
  {
  }

  /** Missing fields are listed in the order in which they are required. */
  lemma {:induction false} MissingInOrder(resolutions: seq<Resolution>, names: seq<string>) returns (at: seq<nat>)
    ensures PicksAt(names, MissingAmong(resolutions, names), at)
  {
    at := [];
    if names != [] {
      var front, last := names[..|names| - 1], names[|names| - 1];
      at := MissingInOrder(resolutions, front);
      PickMore(front, last, MissingAmong(resolutions, front), at);
      hide PicksAt, SourcesOf;
      assert names == front + [last];
      if SourcesOf(resolutions, last) == [] {
        at := at + [|front|];
      } else {
        assert MissingAmong(resolutions, names) == MissingAmong(resolutions, front);
      }
    }
  }

  /**
   * Findings come as the missing fields in profile order, then at most one finding for each column in column
   * order, then the collisions in name order.
   */
  lemma {:induction false} FindingsInOrder(schema: Schema, unit: PowerUnit)
    returns (missing: seq<string>, at: seq<nat>, findings: seq<Finding>, columns: seq<nat>, collisions: seq<Collision>)
    ensures var safe := SafeSchema(schema, unit);
            && SchemaFindings(safe)
               == Map(n => Finding(MissingRequiredField, Some(n)), missing) + findings
                  + Map((c: Collision) => Finding(SchemaCollision, Some(c.field)), collisions)
            && PicksAt([CONSUMER_ID, TIMESTAMP, VALUE_MW], missing, at)
            && OnePerColumn(safe.resolutions, findings, columns)
            && FieldsAscend(collisions)
  {
    var safe := SafeSchema(schema, unit);
    missing, findings, collisions := safe.missing, ColumnFindings(safe.resolutions), safe.collisions;
    columns := ColumnFindingsInOrder(safe.resolutions);
    at := MissingInOrder(safe.resolutions, REQUIRED_FIELDS);
    CollisionOrder(safe.resolutions);
  }

  /** The fatal ones are exactly the missing, ambiguous and colliding ones. */
  lemma FatalMeaning(schema: Schema, unit: PowerUnit, f: Finding)
    ensures f in FatalFindings(SafeSchema(schema, unit)) <==>
            && f.code in {MissingRequiredField, SchemaAmbiguous, SchemaCollision}
            && Deserved(SafeSchema(schema, unit).resolutions, f)
  {
    FindingsMeaning(schema, unit, f);
  }
}
