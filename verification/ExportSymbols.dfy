/** The lines of an export against the profiles: which texts are in force at an
    event, which symbol they give it, and how many draws they count before it. */
module ExportSymbols {
  import opened Words
  import opened Bytes
  import opened StructuredFields
  import opened EventCodec
  import opened CaptureSegment
  import opened WriterLog
  import opened CaptureReader
  import opened Sorting
  import opened CaptureExport

  /** A present text field named "profile_json". */
  predicate HoldsProfile(f: Field) {
    && f.name == [0x70, 0x72, 0x6f, 0x66, 0x69, 0x6c, 0x65, 0x5f, 0x6a, 0x73, 0x6f, 0x6e]
    && f.status == 0 && f.typ == 5
  }

  function ProfileTexts(fields: seq<Field>): seq<Buffer> {
    if fields == [] then []
    else (if HoldsProfile(fields[0]) then [fields[0].bytes] else []) + ProfileTexts(fields[1..])
  }

  /** The text that an event puts in force: that of a marker "profile.reload", from
      its first field that holds one. */
  function ReloadedBy(e: Event): seq<Buffer> {
    var texts := ProfileTexts(e.fields);
    if e.kind == 4
       && e.probe == [0x70, 0x72, 0x6f, 0x66, 0x69, 0x6c, 0x65, 0x2e, 0x72, 0x65, 0x6c, 0x6f, 0x61, 0x64]
       && texts != []
    then [texts[0]] else []
  }

  function Reloads(es: seq<Event>): seq<Buffer> {
    if es == [] then [] else Reloads(es[..|es| - 1]) + ReloadedBy(es[|es| - 1])
  }

  /** Profiles in force, one after the other. */
  function Table(parse: Profiles, texts: seq<Buffer>): SymbolMap {
    if texts == [] then map[] else parse(texts[|texts| - 1], Table(parse, texts[..|texts| - 1]))
  }

  /** The table at event `k`: header profiles, and reloads up to and with `k`. */
  function TableAt(parse: Profiles, headers: seq<Buffer>, es: seq<Event>, k: nat): SymbolMap
    requires k < |es|
  {
    Table(parse, headers + Reloads(es[..k + 1]))
  }

  predicate IsListed(table: SymbolMap, e: Event) {
    e.revision in table && e.probe in table[e.revision]
  }

  /** The profiles in force at event `k` say that its probe owns a draw. */
  predicate OwnsDraw(parse: Profiles, headers: seq<Buffer>, es: seq<Event>, k: nat)
    requires k < |es|
  {
    var table := TableAt(parse, headers, es, k);
    IsListed(table, es[k]) && table[es[k].revision][es[k].probe].ownsDraw
  }

  function OwnersBefore(parse: Profiles, headers: seq<Buffer>, es: seq<Event>, k: nat): nat
    requires k <= |es|
  {
    if k == 0 then 0
    else OwnersBefore(parse, headers, es, k - 1) + (if OwnsDraw(parse, headers, es, k - 1) then 1 else 0)
  }

  /** The line is that of event `k`, with the symbol the profiles in force give it,
      or else one made of its probe that owns no draw, and with the number of
      earlier events whose listed symbol owns a draw. */
  ghost predicate IsLineOf(parse: Profiles, headers: seq<Buffer>, es: seq<Event>, k: nat, line: Line)
    requires k < |es|
  {
    var table, e := TableAt(parse, headers, es, k), es[k];
    && line.event == e
    && (IsListed(table, e) ==> line.symbol == table[e.revision][e.probe])
    && (!IsListed(table, e) ==>
          && line.symbol.name == line.symbol.checkpoint == e.probe && !line.symbol.ownsDraw
          && line.symbol.function_ == [0x53, 0x61, 0x76, 0x6f, 0x72, 0x50, 0x72, 0x6f, 0x62, 0x65])
    && line.drawIndex == OwnersBefore(parse, headers, es, k) % 0x1_0000_0000_0000_0000
  }

  lemma {:induction false} TextIsFirst(fields: seq<Field>)
    ensures var texts := ProfileTexts(fields);
            TextField(fields, PROFILE_JSON) == if texts == [] then None else Some(texts[0])
  {
    if fields != [] && !HoldsProfile(fields[0]) {
      TextIsFirst(fields[1..]);
    }
  }

  lemma TableSnoc(parse: Profiles, texts: seq<Buffer>, more: seq<Buffer>)
    requires |more| <= 1
    ensures Table(parse, texts + more)
         == if more == [] then Table(parse, texts) else parse(more[0], Table(parse, texts))
  {
    if more == [] {
      assert texts + more == texts;
    } else {
      assert (texts + more)[..|texts|] == texts;
    }
  }

  lemma ReloadTables(parse: Profiles, headers: seq<Buffer>, es: seq<Event>, n: nat)
    requires n < |es|
    ensures Reload(parse, Table(parse, headers + Reloads(es[..n])), es[n]) == TableAt(parse, headers, es, n)
  {
    TextIsFirst(es[n].fields);
    assert es[..n + 1][..n] == es[..n];
    Assoc(headers, Reloads(es[..n]), ReloadedBy(es[n]));
    TableSnoc(parse, headers + Reloads(es[..n]), ReloadedBy(es[n]));
  }

  lemma OwnersWrap(parse: Profiles, headers: seq<Buffer>, es: seq<Event>, n: nat)
    requires n < |es|
    ensures var owns := OwnsDraw(parse, headers, es, n);
            AfterDraw(WRAPPED(OwnersBefore(parse, headers, es, n)), owns)
            == WRAPPED(OwnersBefore(parse, headers, es, n + 1))
  {
    AfterDrawWraps(OwnersBefore(parse, headers, es, n), OwnsDraw(parse, headers, es, n));
  }

  /** The first of the lines that are left is that of event `n`. */
  lemma FirstLine(parse: Profiles, headers: seq<Buffer>, es: seq<Event>, n: nat)
    requires n < |es|
    ensures var symbols, draws := Table(parse, headers + Reloads(es[..n])),
                                  WRAPPED(OwnersBefore(parse, headers, es, n));
            var lines := ExportFrom(parse, symbols, draws, es[n..], EVERYTHING);
            && lines != [] && IsLineOf(parse, headers, es, n, lines[0])
            && lines[1..] == ExportFrom(parse, Table(parse, headers + Reloads(es[..n + 1])),
                                        WRAPPED(OwnersBefore(parse, headers, es, n + 1)), es[n + 1..], EVERYTHING)
  {
    var symbols, draws := Table(parse, headers + Reloads(es[..n])), WRAPPED(OwnersBefore(parse, headers, es, n));
    assert es[n..][0] == es[n] && es[n..][1..] == es[n + 1..];
    ReloadTables(parse, headers, es, n);
    OwnersWrap(parse, headers, es, n);
    ExportStep(parse, symbols, draws, es[n..]);
  }

  ghost predicate AreLinesFrom(parse: Profiles, headers: seq<Buffer>, es: seq<Event>, n: nat, lines: seq<Line>) {
    && n + |lines| == |es|
    && forall i :: 0 <= i < |lines| ==> IsLineOf(parse, headers, es, n + i, lines[i])
  }

  lemma LinesCons(parse: Profiles, headers: seq<Buffer>, es: seq<Event>, n: nat, lines: seq<Line>)
    requires n < |es| && lines != [] && IsLineOf(parse, headers, es, n, lines[0])
    requires AreLinesFrom(parse, headers, es, n + 1, lines[1..])
    ensures AreLinesFrom(parse, headers, es, n, lines)
  {
    forall i | 0 <= i < |lines| ensures IsLineOf(parse, headers, es, n + i, lines[i]) {
      if i > 0 {
        var j := i - 1;
        assert IsLineOf(parse, headers, es, n + 1 + j, lines[1..][j]);
      }
    }
  }

  lemma {:induction false} LinesFrom(parse: Profiles, headers: seq<Buffer>, es: seq<Event>, n: nat)
    requires n <= |es|
    ensures AreLinesFrom(parse, headers, es, n,
                         ExportFrom(parse, Table(parse, headers + Reloads(es[..n])),
                                    WRAPPED(OwnersBefore(parse, headers, es, n)), es[n..], EVERYTHING))
    decreases |es| - n
  {
    if n < |es| {
      FirstLine(parse, headers, es, n);
      LinesFrom(parse, headers, es, n + 1);
      LinesCons(parse, headers, es, n, ExportFrom(parse, Table(parse, headers + Reloads(es[..n])),
                                                  WRAPPED(OwnersBefore(parse, headers, es, n)), es[n..], EVERYTHING));
    }
  }

  function HasSequence(n: u64): Event -> bool {
    (e: Event) => e.captureSequence == n
  }

  /** The events of an export, in its order: sorted by capture sequence, and those
      of one sequence in the order in which they were read. */
  ghost predicate InCaptureOrder(es: seq<Event>, read: seq<Event>) {
    && multiset(es) == multiset(read)
    && (forall i, j :: 0 <= i < j < |es| ==> es[i].captureSequence <= es[j].captureSequence)
    && forall n: u64 :: Select(HasSequence(n), es) == Select(HasSequence(n), read)
  }

  lemma SortedIsInOrder(read: seq<Event>)
    ensures InCaptureOrder(StableSort(CAPTURE_ORDER, read), read)
  {
    var es := StableSort(CAPTURE_ORDER, read);
    StableSortPermutes(CAPTURE_ORDER, read);
    StableSortIsStable(CAPTURE_ORDER, read, 0);
    forall n: u64 ensures Select(HasSequence(n), es) == Select(HasSequence(n), read) {
      StableSortIsStable(CAPTURE_ORDER, read, n);
      SameSelect(HasSequence(n), WithKey(CAPTURE_ORDER, n), es);
      SameSelect(HasSequence(n), WithKey(CAPTURE_ORDER, n), read);
    }
    forall i, j | 0 <= i < j < |es| ensures es[i].captureSequence <= es[j].captureSequence {
      assert CAPTURE_ORDER(es[i]) <= CAPTURE_ORDER(es[j]);
    }
  }

  lemma {:induction false} SameSelect<T(!new)>(p: T -> bool, q: T -> bool, xs: seq<T>)
    requires forall x :: p(x) == q(x)
    ensures Select(p, xs) == Select(q, xs)
  {
    if xs != [] {
      SameSelect(p, q, xs[1..]);
    }
  }

  /** The unfiltered export, line by line against the profiles: of the events in
      capture order, line `k` has the symbol that the profiles in force at its event
      give it, and the number of draws they count before it. */
  lemma ExportFollowsProfiles(parse: Profiles, headers: seq<Buffer>, read: seq<Event>, es: seq<Event>)
    requires es == StableSort(CAPTURE_ORDER, read)
    ensures InCaptureOrder(es, read)
    ensures var lines := Export(parse, Table(parse, headers), read, EVERYTHING);
            |lines| == |es| && forall k :: 0 <= k < |es| ==> IsLineOf(parse, headers, es, k, lines[k])
  {
    SortedIsInOrder(read);
    assert es[..0] == [] && es[0..] == es && headers + [] == headers;
    LinesFrom(parse, headers, es, 0);
  }

  /** What a query lets through. */
  function Through(q: Query): Line -> bool {
    (line: Line) =>
      && q.first <= line.event.captureSequence && line.event.captureSequence <= q.last
      && (q.probe == None || q.probe == Some(line.event.probe))
  }

  lemma QueriesSelect(parse: Profiles, symbols: SymbolMap, read: seq<Event>, q: Query)
    ensures Export(parse, symbols, read, q) == Select(Through(q), Export(parse, symbols, read, EVERYTHING))
  {
    ExportFilters(parse, symbols, read, q);
    SameSelect(Through(q), MatchingLines(q), Export(parse, symbols, read, EVERYTHING));
  }

  // ---------------------------------------------------------- whole captures

  /** The profiles in the headers that can be read. */
  function HeaderProfiles(files: seq<seq<byte>>): seq<Buffer> {
    if files == [] then []
    else
      HeaderProfiles(files[..|files| - 1])
      + (match ReadFileHeader(files[|files| - 1])
         case BadHeader(_) => []
         case GoodHeader(m, _) => [m.profile])
  }

  lemma {:induction false} SeedsAreTable(parse: Profiles, files: seq<seq<byte>>)
    ensures Seeded(parse, files) == Table(parse, HeaderProfiles(files))
  {
    if files != [] {
      var front := files[..|files| - 1];
      SeedsAreTable(parse, front);
      match ReadFileHeader(files[|files| - 1])
      case BadHeader(_) => TableSnoc(parse, HeaderProfiles(front), []);
      case GoodHeader(m, _) => TableSnoc(parse, HeaderProfiles(front), [m.profile]);
    }
  }

  /** export_jsonl on files: refused exactly if there is none or one reports an error;
      otherwise the lines are those of the events read, each against the header
      profiles and the reloads before it, and a query selects from them. */
  lemma ExportOfFiles(z: Packer, parse: Profiles, files: seq<seq<byte>>, q: Query, es: seq<Event>)
    requires es == StableSort(CAPTURE_ORDER, EventsRead(ReadSegments(z, files)))
    ensures ExportFiles(z, parse, files, q) == None
            <==> files == [] || exists i :: 0 <= i < |files| && ReadSegment(z, files[i]).errors != []
    ensures ExportFiles(z, parse, files, q).Some? ==>
              && InCaptureOrder(es, EventsRead(ReadSegments(z, files)))
              && ExportFiles(z, parse, files, EVERYTHING).Some?
              && var lines := ExportFiles(z, parse, files, EVERYTHING).value;
              && |lines| == |es|
              && (forall k :: 0 <= k < |es| ==> IsLineOf(parse, HeaderProfiles(files), es, k, lines[k]))
              && ExportFiles(z, parse, files, q) == Some(Select(Through(q), lines))
  {
    var reports := ReadSegments(z, files);
    assert forall i :: 0 <= i < |files| ==> reports[i] in reports;
    if r :| r in reports && r.errors != [] {
      var i :| 0 <= i < |files| && reports[i] == r;
      assert ReadSegment(z, files[i]).errors != [];
    }
    SeedsAreTable(parse, files);
    ExportFollowsProfiles(parse, HeaderProfiles(files), EventsRead(reports), es);
    QueriesSelect(parse, Seeded(parse, files), EventsRead(reports), q);
  }
}
