/** Exporting a capture as lines: events in stable capture order, each annotated
    with its probe symbol and the number of random draws before it. */
module CaptureExport {
  import opened Words
  import opened Bytes
  import opened StructuredFields
  import opened EventCodec
  import opened CaptureSegment
  import opened WriterLog
  import opened CaptureReader
  import opened Sorting

  // ------------------------------------------------------------------ symbols

  const KIND_MARKER: byte := 4
  const STATUS_PRESENT: byte := 0

  /** "profile.reload" */
  const RELOAD: seq<byte> := [0x70, 0x72, 0x6f, 0x66, 0x69, 0x6c, 0x65, 0x2e, 0x72, 0x65, 0x6c, 0x6f, 0x61, 0x64]

  /** "profile_json" */
  const PROFILE_JSON: seq<byte> := [0x70, 0x72, 0x6f, 0x66, 0x69, 0x6c, 0x65, 0x5f, 0x6a, 0x73, 0x6f, 0x6e]

  /** "SavorProbe" */
  const FALLBACK_FUNCTION: seq<byte> := [0x53, 0x61, 0x76, 0x6f, 0x72, 0x50, 0x72, 0x6f, 0x62, 0x65]

  datatype Symbol = Symbol(name: seq<byte>, function_: seq<byte>, checkpoint: seq<byte>, ownsDraw: bool)

  /** Probe symbols by profile revision and probe. */
  type SymbolMap = map<u64, map<seq<byte>, Symbol>>

  /** Parsing a profile and entering its symbols is foreign text handling. */
  type Profiles = (seq<byte>, SymbolMap) -> SymbolMap

  function TextField(fields: seq<Field>, name: seq<byte>): Option<seq<byte>> {
    if fields == [] then None
    else if fields[0].name == name && fields[0].status == STATUS_PRESENT && fields[0].typ == TYPE_TEXT
    then Some(fields[0].bytes)
    else TextField(fields[1..], name)
  }

  function Reload(parse: Profiles, symbols: SymbolMap, e: Event): SymbolMap {
    if e.kind == KIND_MARKER && e.probe == RELOAD then
      match TextField(e.fields, PROFILE_JSON)
      case None => symbols
      case Some(text) => parse(text, symbols)
    else symbols
  }

  function SymbolFor(symbols: SymbolMap, e: Event): Symbol {
    if e.revision in symbols && e.probe in symbols[e.revision] then symbols[e.revision][e.probe]
    else Symbol(e.probe, FALLBACK_FUNCTION, e.probe, false)
  }

  // ------------------------------------------------------------------- export

  datatype Line = Line(event: Event, symbol: Symbol, drawIndex: u64)

  datatype Query = Query(probe: Option<seq<byte>>, first: u64, last: u64)

  const EVERYTHING: Query := Query(None, 0, 0xFFFF_FFFF_FFFF_FFFF)

  predicate Matches(q: Query, e: Event) {
    && q.first <= e.captureSequence <= q.last
    && (q.probe.Some? ==> e.probe == q.probe.value)
  }

  function AfterDraw(draws: u64, owns: bool): u64 {
    if owns then (draws + 1) % TWO_64 else draws
  }

  /** The export loop: symbols and the draw index advance for every event, and
      only then is the event filtered. */
  function ExportFrom(parse: Profiles, symbols: SymbolMap, draws: u64, es: seq<Event>, q: Query): seq<Line>
    decreases |es|
  {
    if es == [] then []
    else
      var symbols' := Reload(parse, symbols, es[0]);
      var symbol := SymbolFor(symbols', es[0]);
      var draws' := AfterDraw(draws, symbol.ownsDraw);
      (if Matches(q, es[0]) then [Line(es[0], symbol, draws)] else [])
      + ExportFrom(parse, symbols', draws', es[1..], q)
  }

  const CAPTURE_ORDER: Event -> int := (e: Event) => e.captureSequence

  function Export(parse: Profiles, symbols: SymbolMap, es: seq<Event>, q: Query): seq<Line> {
    ExportFrom(parse, symbols, 0, StableSort(CAPTURE_ORDER, es), q)
  }

  method ExportLines(parse: Profiles, symbols: SymbolMap, es: seq<Event>, q: Query) returns (lines: seq<Line>)
    ensures lines == Export(parse, symbols, es, q)
  {
    var events := StableSort(CAPTURE_ORDER, es);
    var current, draws: u64 := symbols, 0;
    lines := [];
    for i := 0 to |events|
      invariant lines + ExportFrom(parse, current, draws, events[i..], q)
             == ExportFrom(parse, symbols, 0, events, q)
    {
      var e := events[i];
      assert events[i..][0] == e && events[i..][1..] == events[i + 1..];
      current := Reload(parse, current, e);
      var symbol := SymbolFor(current, e);
      var index := draws;
      if symbol.ownsDraw {
        draws := (draws + 1) % TWO_64;
      }
      ghost var rest := ExportFrom(parse, current, draws, events[i + 1..], q);
      if Matches(q, e) {
        Assoc(lines, [Line(e, symbol, index)], rest);
        lines := lines + [Line(e, symbol, index)];
      } else {
        assert [] + rest == rest;
      }
    }
    assert events[|events|..] == [] && lines + [] == lines;
  }

  function MatchingLines(q: Query): Line -> bool {
    (line: Line) => Matches(q, line.event)
  }

  lemma {:induction false} FilterFrom(parse: Profiles, symbols: SymbolMap, draws: u64, es: seq<Event>, q: Query)
    ensures ExportFrom(parse, symbols, draws, es, q)
         == Select(MatchingLines(q), ExportFrom(parse, symbols, draws, es, EVERYTHING))
    decreases |es|
  {
    if es != [] {
      var symbols' := Reload(parse, symbols, es[0]);
      var symbol := SymbolFor(symbols', es[0]);
      var draws' := AfterDraw(draws, symbol.ownsDraw);
      FilterFrom(parse, symbols', draws', es[1..], q);
      var rest := ExportFrom(parse, symbols', draws', es[1..], EVERYTHING);
      assert ([Line(es[0], symbol, draws)] + rest)[1..] == rest;
    }
  }

  /** Filtering commutes with annotation. */
  lemma ExportFilters(parse: Profiles, symbols: SymbolMap, es: seq<Event>, q: Query)
    ensures Export(parse, symbols, es, q) == Select(MatchingLines(q), Export(parse, symbols, es, EVERYTHING))
  {
    FilterFrom(parse, symbols, 0, StableSort(CAPTURE_ORDER, es), q);
  }

  /** How many of these lines own a random draw. */
  function Draws(lines: seq<Line>): nat {
    if lines == [] then 0 else (if lines[0].symbol.ownsDraw then 1 else 0) + Draws(lines[1..])
  }

  /** The draw index is a 64-bit counter. */
  const WRAPPED: nat -> u64 := (n: nat) => n % TWO_64

  lemma AfterDrawWraps(draws: nat, owns: bool)
    ensures AfterDraw(WRAPPED(draws), owns) == WRAPPED(draws + if owns then 1 else 0)
  {
  }

  /** Every line carries the number of draws before it, counted from `draws`. */
  ghost predicate CountsDraws(wrap: nat -> u64, lines: seq<Line>, draws: nat) {
    forall k :: 0 <= k < |lines| ==> lines[k].drawIndex == wrap(draws + Draws(lines[..k]))
  }

  lemma CountsDrawsStep(wrap: nat -> u64, first: Line, rest: seq<Line>, draws: nat)
    requires first.drawIndex == wrap(draws)
    requires CountsDraws(wrap, rest, draws + if first.symbol.ownsDraw then 1 else 0)
    ensures CountsDraws(wrap, [first] + rest, draws)
  {
    var lines := [first] + rest;
    assert lines[1..] == rest && lines[..0] == [];
    forall k | 0 <= k < |lines| ensures lines[k].drawIndex == wrap(draws + Draws(lines[..k])) {
      if k > 0 {
        assert lines[..k][1..] == rest[..k - 1] && lines[k] == rest[k - 1];
      }
    }
  }

  function EventsIn(lines: seq<Line>): seq<Event> {
    seq(|lines|, i requires 0 <= i < |lines| => lines[i].event)
  }

  lemma ExportStep(parse: Profiles, symbols: SymbolMap, draws: u64, es: seq<Event>)
    requires es != []
    ensures var symbols' := Reload(parse, symbols, es[0]);
            var symbol := SymbolFor(symbols', es[0]);
            ExportFrom(parse, symbols, draws, es, EVERYTHING)
            == [Line(es[0], symbol, draws)]
               + ExportFrom(parse, symbols', AfterDraw(draws, symbol.ownsDraw), es[1..], EVERYTHING)
  {
  }

  lemma EventsInCons(first: Line, rest: seq<Line>)
    ensures EventsIn([first] + rest) == [first.event] + EventsIn(rest)
  {
  }

  lemma {:induction false} AnnotatedFrom(parse: Profiles, symbols: SymbolMap, draws: nat, es: seq<Event>)
    ensures var lines := ExportFrom(parse, symbols, WRAPPED(draws), es, EVERYTHING);
            EventsIn(lines) == es && CountsDraws(WRAPPED, lines, draws)
    decreases |es|
  {
    if es != [] {
      var symbols' := Reload(parse, symbols, es[0]);
      var symbol := SymbolFor(symbols', es[0]);
      var draws' := draws + if symbol.ownsDraw then 1 else 0;
      var first, rest := Line(es[0], symbol, WRAPPED(draws)),
                         ExportFrom(parse, symbols', WRAPPED(draws'), es[1..], EVERYTHING);
      AfterDrawWraps(draws, symbol.ownsDraw);
      ExportStep(parse, symbols, WRAPPED(draws), es);
      AnnotatedFrom(parse, symbols', draws', es[1..]);
      CountsDrawsStep(WRAPPED, first, rest, draws);
      EventsInCons(first, rest);
    }
  }

  /** The unfiltered export lists every event in stable capture order, each with
      the number of draw-owning events before it in the whole capture. */
  lemma ExportAnnotates(parse: Profiles, symbols: SymbolMap, es: seq<Event>)
    ensures var lines := Export(parse, symbols, es, EVERYTHING);
            EventsIn(lines) == StableSort(CAPTURE_ORDER, es) && CountsDraws(WRAPPED, lines, 0)
  {
    AnnotatedFrom(parse, symbols, 0, StableSort(CAPTURE_ORDER, es));
  }

  /** Two captures that hold the same events in the same order for every capture
      sequence export alike, however their segments interleave them. */
  lemma ExportIgnoresStorageOrder(parse: Profiles, symbols: SymbolMap, ds: seq<Event>, es: seq<Event>, q: Query)
    requires SameSelections(CAPTURE_ORDER, ds, es)
    ensures Export(parse, symbols, ds, q) == Export(parse, symbols, es, q)
  {
    var ds', es' := StableSort(CAPTURE_ORDER, ds), StableSort(CAPTURE_ORDER, es);
    forall k ensures Select(WithKey(CAPTURE_ORDER, k), ds') == Select(WithKey(CAPTURE_ORDER, k), es') {
      StableSortIsStable(CAPTURE_ORDER, ds, k);
      StableSortIsStable(CAPTURE_ORDER, es, k);
      assert Select(WithKey(CAPTURE_ORDER, k), ds) == Select(WithKey(CAPTURE_ORDER, k), es);
    }
    StableSortIsStable(CAPTURE_ORDER, ds, 0);
    StableSortIsStable(CAPTURE_ORDER, es, 0);
    SortedIsUnique(CAPTURE_ORDER, ds', es');
  }

  // ---------------------------------------------------------- whole captures

  /** The profile in the header of a file. */
  function ProfileOf(file: seq<byte>): Option<Buffer> {
    match ReadFileHeader(file)
    case BadHeader(_) => None
    case GoodHeader(m, _) => Some(m.profile)
  }

  /** The symbols of all profiles, one file after the other. */
  function Seeded(parse: Profiles, files: seq<seq<byte>>): SymbolMap {
    if files == [] then map[]
    else
      var symbols := Seeded(parse, files[..|files| - 1]);
      match ProfileOf(files[|files| - 1])
      case None => symbols
      case Some(text) => parse(text, symbols)
  }

  /** export_jsonl: nothing is exported if reading reports an error. */
  function ExportFiles(z: Packer, parse: Profiles, files: seq<seq<byte>>, q: Query): Option<seq<Line>> {
    var reports := ReadSegments(z, files);
    if ReadAllSucceeds(reports) then Some(Export(parse, Seeded(parse, files), EventsRead(reports), q)) else None
  }

  method ExportCapture(z: Packer, parse: Profiles, files: seq<seq<byte>>, q: Query)
    returns (lines: Option<seq<Line>>)
    requires UsesCodec(z)
    ensures lines == ExportFiles(z, parse, files, q)
  {
    var reports, events := ReadCapture(z, files);
    if !ReadAllSucceeds(reports) {
      return None;
    }
    var symbols: SymbolMap := map[];
    for i := 0 to |files|
      invariant symbols == Seeded(parse, files[..i])
    {
      assert files[..i + 1][..i] == files[..i];
      var profile := ProfileOf(files[i]);
      if profile.Some? {
        symbols := parse(profile.value, symbols);
      }
    }
    assert files[..|files|] == files;
    var exported := ExportLines(parse, symbols, events, q);
    lines := Some(exported);
  }

  /** The symbols of `n` files with the same profile. */
  function SeededBy(parse: Profiles, text: Buffer, n: nat): SymbolMap {
    if n == 0 then map[] else parse(text, SeededBy(parse, text, n - 1))
  }

  lemma {:induction false} SameProfile(parse: Profiles, files: seq<seq<byte>>, text: Buffer)
    requires forall f :: f in files ==> ProfileOf(f) == Some(text)
    ensures Seeded(parse, files) == SeededBy(parse, text, |files|)
  {
    if files != [] {
      assert files[|files| - 1] in files;
      SameProfile(parse, files[..|files| - 1], text);
    }
  }

  lemma ProfileInHeader(m: Metadata, body: seq<byte>)
    requires |MetadataBytes(m)| <= MAX_METADATA
    ensures ProfileOf(HeaderBytes(m) + body) == Some(m.profile)
  {
    FileHeaderRoundTrip(m, body);
  }

  lemma FilesHaveProfile(z: Packer, g: Log, m: Metadata, f: seq<byte>)
    requires |MetadataBytes(m)| <= MAX_METADATA && g.header == HeaderBytes(m) && f in Files(z, g)
    ensures ProfileOf(f) == Some(m.profile)
  {
    var i :| 0 <= i < |g.closed| && f == Files(z, g)[i];
    ProfileInHeader(m, RecordsBytes(z, g.closed[i].records + [g.closed[i].footer]));
  }

  /** Whatever run left the files, marked or not, exporting them gives the lines
      of exactly the accepted events: unfiltered, each of them once, in stable
      capture order, with its number of draws. */
  lemma RunExports(
      k: Setup, c: Compressor, m: Metadata, o: Options, calls: seq<Call>, parse: Profiles, q: Query)
    requires k.packer == CapturePacker(c) && Lossless(c)
    requires Positive(o) && |MetadataBytes(m)| <= MAX_METADATA
    requires AllWellFormed(Appended(calls))
    requires AllSmall(k.packer, RunToClose(k, m, o, calls).closed)
    ensures var files := Files(k.packer, RunToClose(k, m, o, calls));
            var accepted := AcceptedBy(k, RECORD_ENCODER(k.packer), Opened(HeaderBytes(m), o), calls);
            var all := ExportFiles(k.packer, parse, files, EVERYTHING);
            && ExportFiles(k.packer, parse, files, q)
               == Some(Export(parse, SeededBy(parse, m.profile, |files|), accepted, q))
            && all.Some? && EventsIn(all.value) == StableSort(CAPTURE_ORDER, accepted)
            && CountsDraws(WRAPPED, all.value, 0)
  {
    var files := Files(k.packer, RunToClose(k, m, o, calls));
    WholeRunRoundTrip(k, c, m, o, calls);
    RunCloses(k, RECORD_ENCODER(k.packer), HeaderBytes(m), o, calls);
    forall f | f in files ensures ProfileOf(f) == Some(m.profile) {
      FilesHaveProfile(k.packer, RunToClose(k, m, o, calls), m, f);
    }
    SameProfile(parse, files, m.profile);
    ExportAnnotates(parse, SeededBy(parse, m.profile, |files|), EventsRead(ReadSegments(k.packer, files)));
  }
}
