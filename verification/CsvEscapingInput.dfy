/** A file that is lost whole: a plain header, and one timestamp with no UTC counterpart. */
module CsvEscapingInput {
  import opened Wrappers
  import opened Text
  import opened SchemaResolver
  import opened HeaderResolution
  import opened ConsumptionMapping
  import opened CsvIngestion
  import opened CsvReturns

  const PLAIN_HEADER := [CONSUMER_ID, TIMESTAMP, VALUE_MW]

  /** Five hours ahead of UTC at the start of the year one: converting it to UTC leaves the calendar. */
  const EARLY := "0001-01-01T00:00:00+05:00"

  /** The plain power header claims no unit but the configured one. */
  predicate PlainPowerHeader(cfg: Config) {
    !ClaimsConflictingUnit(Words(cfg.resolver.rules.normalize(VALUE_MW)), PowerToken(cfg.unit))
  }

  lemma NamesDiffer()
    ensures CONSUMER_ID != TIMESTAMP && TIMESTAMP != VALUE_MW && CONSUMER_ID != VALUE_MW
  {
    assert |CONSUMER_ID| == 11 && |TIMESTAMP| == 9 && |VALUE_MW| == 8;
  }

  /** A required name used as a header resolves to its own field and survives unit safety. */
  lemma PlainColumn(cfg: Config, name: string)
    requires ValidConfig(cfg) && PlainPowerHeader(cfg) && name in {CONSUMER_ID, TIMESTAMP, VALUE_MW}
    ensures var r := cfg.resolver;
            ResolvesTo(HeaderUnitPolicy(ResolveField(r.rules, r.specs, r.lookup, name), PowerToken(cfg.unit)), name)
  {
    var r := cfg.resolver;
    assert name in (set s | s in r.specs :: s.canonicalName);
    var s :| s in r.specs && s.canonicalName == name;
    assert Owns(r.rules, s, r.rules.normalize(name));
    ExactMatchResolves(r, name, s);
    hide ValidConfig;
    assert ResolveField(r.rules, r.specs, r.lookup, name).normalized == r.rules.normalize(name);
  }

  /** Three columns resolve to three different fields, in this order. */
  predicate InOrder(columns: seq<Resolution>, a: string, b: string, c: string) {
    && |columns| == 3 && a != b && b != c && a != c
    && ResolvesTo(columns[0], a) && ResolvesTo(columns[1], b) && ResolvesTo(columns[2], c)
  }

  predicate PlainIndex(index: map<string, nat>, a: string, b: string, c: string) {
    a in index && b in index && c in index && index[a] == 0 && index[b] == 1 && index[c] == 2
  }

  lemma ThreeColumns(columns: seq<Resolution>, a: string, b: string, c: string)
    requires InOrder(columns, a, b, c)
    ensures forall n :: |SourcesOf(columns, n)| <= 1
    ensures SourcesOf(columns, a) != [] && SourcesOf(columns, b) != [] && SourcesOf(columns, c) != []
    ensures PlainIndex(ColumnIndex(columns), a, b, c)
  {
    var two, one := columns[..2], columns[..1];
    assert columns[..|columns| - 1] == two && two[..|two| - 1] == one && one[..|one| - 1] == [];
    assert ColumnIndex(one) == map[a := 0];
    assert ColumnIndex(two) == map[a := 0, b := 1];
    forall n ensures |SourcesOf(columns, n)| <= 1 {
      assert SourcesOf(one, n) == if n == a then [columns[0].source] else [];
      assert SourcesOf(two, n) == SourcesOf(one, n) + if n == b then [columns[1].source] else [];
    }
    assert SourcesOf(one, a) != [];
    assert SourcesOf(two, a) != [] && SourcesOf(two, b) != [];
  }

  lemma ThreeColumnsAccepted(schema: Schema, a: string, b: string, c: string)
    requires schema.missing == MissingAmong(schema.resolutions, [a, b, c])
    requires schema.collisions == CollisionsOf(schema.resolutions)
    requires InOrder(schema.resolutions, a, b, c)
    ensures FatalFindings(schema) == []
    ensures PlainIndex(ColumnIndex(schema.resolutions), a, b, c)
  {
    ThreeColumns(schema.resolutions, a, b, c);
    hide *;
    NoneMissing(schema.resolutions, a, b, c);
    NoneCollide(schema.resolutions);
    AllResolved(schema.resolutions, a, b, c);
    AcceptedMeaning(schema);
  }

  lemma AllResolved(columns: seq<Resolution>, a: string, b: string, c: string)
    requires InOrder(columns, a, b, c)
    ensures forall r :: r in columns ==> r.status != Ambiguous
  {
    assert columns == [columns[0], columns[1], columns[2]];
  }

  lemma NoneMissing(columns: seq<Resolution>, a: string, b: string, c: string)
    requires SourcesOf(columns, a) != [] && SourcesOf(columns, b) != [] && SourcesOf(columns, c) != []
    ensures MissingAmong(columns, [a, b, c]) == []
  {
    NothingMissing(columns, [a, b, c]);
    hide MissingAmong, SourcesOf;
    NoMembers(MissingAmong(columns, [a, b, c]));
  }

  lemma NoneCollide(columns: seq<Resolution>)
    requires forall n :: |SourcesOf(columns, n)| <= 1
    ensures CollisionsOf(columns) == []
  {
    NoCollision(columns);
  }

  lemma PlainColumns(cfg: Config)
    requires ValidConfig(cfg) && PlainPowerHeader(cfg)
    ensures InOrder(HeaderSchema(cfg, PLAIN_HEADER).resolutions, CONSUMER_ID, TIMESTAMP, VALUE_MW)
  {
    NamesDiffer();
    PlainColumn(cfg, CONSUMER_ID);
    PlainColumn(cfg, TIMESTAMP);
    PlainColumn(cfg, VALUE_MW);
    hide ValidConfig, ResolveField, HeaderUnitPolicy, PlainPowerHeader, MissingAmong, CollisionsOf, PowerToken, ResolvesTo;
  }

  lemma PlainHeaderAccepted(cfg: Config)
    requires ValidConfig(cfg) && PlainPowerHeader(cfg)
    ensures HeaderAccepted(cfg, PLAIN_HEADER)
    ensures PlainIndex(ColumnIndex(HeaderSchema(cfg, PLAIN_HEADER).resolutions), CONSUMER_ID, TIMESTAMP, VALUE_MW)
  {
    PlainColumns(cfg);
    hide ValidConfig, PlainPowerHeader, MissingAmong, CollisionsOf, Policed, FatalFindings, ResolveAll, ColumnIndex, InOrder, PlainIndex;
    ThreeColumnsAccepted(HeaderSchema(cfg, PLAIN_HEADER), CONSUMER_ID, TIMESTAMP, VALUE_MW);
  }

  lemma {:induction false} NonBlankMembers(rows: seq<seq<string>>)
    ensures forall row :: row in NonBlank(rows) <==> row in rows && !IsBlank(row)
    ensures rows != [] && !IsBlank(rows[0]) ==> NonBlank(rows) != [] && NonBlank(rows)[0] == rows[0]
  {
    if rows != [] {
      var front, last := rows[..|rows| - 1], rows[|rows| - 1];
      NonBlankMembers(front);
      assert rows == front + [last];
    }
  }

  lemma LinesNotBlank(consumer: string, power: string)
    ensures !IsBlank(PLAIN_HEADER) && !IsBlank([consumer, EARLY, power])
  {
    StripResult(CONSUMER_ID);
    StripResult(EARLY);
    assert Stripped(CONSUMER_ID) && Stripped(EARLY);
    assert PLAIN_HEADER[0] in PLAIN_HEADER && [consumer, EARLY, power][1] in [consumer, EARLY, power];
  }

  /**
   * Under every configuration whose cell reader lets the overflow of such a timestamp out, a file with
   * the plain header and that row returns nothing, however many good rows stand around it.
   */
  lemma EarlyInstantLosesTheFile(cfg: Config, before: seq<seq<string>>, consumer: string, power: string,
                                 after: seq<seq<string>>, ending: Ending)
    requires ValidConfig(cfg) && PlainPowerHeader(cfg) && cfg.read(consumer, EARLY, power) == Escaped
    ensures Ingest(cfg, [PLAIN_HEADER] + before + [[consumer, EARLY, power]] + after, ending) == Err(Uncaught)
  {
    var bad := [consumer, EARLY, power];
    var rows := [PLAIN_HEADER] + before + [bad] + after;
    EarlyRowIsData(rows, consumer, power, |before| + 1);
    EarlyRowEscapes(cfg, consumer, power);
    hide NonBlank, DataRows, LayoutOf, ValidConfig, Ingest, Escapes, PlainPowerHeader;
    IngestReturns(cfg, rows, ending);
  }

  lemma EarlyRowEscapes(cfg: Config, consumer: string, power: string)
    requires ValidConfig(cfg) && PlainPowerHeader(cfg) && cfg.read(consumer, EARLY, power) == Escaped
    ensures LayoutOf(cfg, PLAIN_HEADER).Ok?
    ensures Escapes(cfg, LayoutOf(cfg, PLAIN_HEADER).value, [consumer, EARLY, power])
  {
    PlainHeaderAccepted(cfg);
    hide ValidConfig, PlainPowerHeader, HeaderSchema, HeaderAccepted, ColumnIndex, SchemaFindings, FatalFindings, Report, PlainIndex;
    var layout := LayoutOf(cfg, PLAIN_HEADER).value;
    RowEscapes(cfg, layout, consumer, EARLY, power);
  }

  lemma RowEscapes(cfg: Config, layout: Layout, consumer: string, timestamp: string, power: string)
    requires PlainIndex(layout.index, CONSUMER_ID, TIMESTAMP, VALUE_MW) && layout.width == 3
    requires cfg.read(consumer, timestamp, power) == Escaped
    ensures Escapes(cfg, layout, [consumer, timestamp, power])
  {
  }

  lemma EarlyRowIsData(rows: seq<seq<string>>, consumer: string, power: string, k: nat)
    requires 0 < k < |rows| && rows[0] == PLAIN_HEADER && rows[k] == [consumer, EARLY, power]
    ensures NonBlank(rows) != [] && NonBlank(rows)[0] == PLAIN_HEADER
    ensures [consumer, EARLY, power] in DataRows(rows)
  {
    LinesNotBlank(consumer, power);
    NonBlankMembers(rows);
    hide NonBlank, IsBlank;
    BadIsNoHeader(consumer, power);
    assert rows[k] in rows;
    LaterMember(NonBlank(rows), rows[k]);
  }

  lemma BadIsNoHeader(consumer: string, power: string)
    ensures [consumer, EARLY, power] != PLAIN_HEADER
  {
    assert [consumer, EARLY, power][1] == EARLY && PLAIN_HEADER[1] == TIMESTAMP;
    assert |EARLY| == 25 && |TIMESTAMP| == 9;
  }

  lemma LaterMember<T>(s: seq<T>, x: T)
    requires x in s && s[0] != x
    ensures x in s[1..]
  {
    assert s == [s[0]] + s[1..];
  }
}
