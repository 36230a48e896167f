/**
The archive of a validated run: its source lines in storage order, the fingerprint of its content
and the byte objects its attachments need.
*/
module Archive {
  import opened Protocol
  import opened Validator
  import opened Lifecycle
  import opened Soundness
  import opened Sorting
  import Meaning

  // ---------------------------------------------------------------- what a validation retains

  /** The lines that decoded. */
  function Kept(lines: seq<Line>): seq<Line> {
    if lines == [] then []
    else Kept(lines[..|lines| - 1]) + (if lines[|lines| - 1].Decoded? then [lines[|lines| - 1]] else [])
  }

  function AllKept(files: seq<File>): seq<Line> {
    if files == [] then [] else AllKept(files[..|files| - 1]) + Kept(files[|files| - 1].lines)
  }

  /** The retained lines as text to be read again. */
  function Texts(source: seq<SourceLine>): seq<Line> {
    seq(|source|, i requires 0 <= i < |source| => Decoded(source[i].event, source[i].raw))
  }

  /** The events of the lines that were not duplicates. */
  function Originals(source: seq<SourceLine>): seq<Event> {
    if source == [] then []
    else
      var last := source[|source| - 1];
      Originals(source[..|source| - 1]) + (if last.disposition.Duplicate? then [] else [last.event])
  }

  lemma {:induction false} OriginalsJoin(a: seq<SourceLine>, b: seq<SourceLine>)
    ensures Originals(a + b) == Originals(a) + Originals(b)
  {
    if b == [] {
      assert a + b == a;
    } else {
      OriginalsJoin(a, b[..|b| - 1]);
      assert (a + b)[..|a + b| - 1] == a + b[..|b| - 1];
    }
  }

  /** What a line without error leaves behind. */
  lemma RetainedExact(y: At, log: seq<Event>, line: Line, file: string, number: nat)
    requires Inv(y.core, log) && !y.file.abandoned && y.core.errors == [] && line.Decoded?
    requires ReadLine(y, line).core.errors == []
    ensures Texts(Retained(y, line, file, number)) == [line]
    ensures Originals(Retained(y, line, file, number)) == if line.event in log then [] else [line.event]
  {
    RepeatedInLog(y.core, log, line);
    hide Inv;
    ReadLineCases(y, line);
    if line.event !in log {
      assert Faults(y.core, y.file, line.event) == [];
      hide Updated, PayloadFaults, ReadLine;
      OriginalOne(Retained(y, line, file, number));
    }
  }

  lemma OriginalOne(one: seq<SourceLine>)
    ensures |one| == 1 && !one[0].disposition.Duplicate? ==> Originals(one) == [one[0].event]
  {
    if |one| == 1 { assert one[..0] == []; }
  }

  /** A feed without error keeps every decoded line, and marks the new ones as originals. */
  lemma {:induction false} SourceExact(x: At, log: seq<Event>, lines: seq<Line>, file: string)
    requires Inv(x.core, log) && x.core.errors == [] && !x.file.abandoned
    requires Read(x, lines).core.errors == []
    ensures Texts(Source(x, lines, file)) == Kept(lines)
    ensures Originals(Source(x, lines, file)) == New(log, lines)
    ensures CountRepeats(x, lines) + |New(log, lines)| == |Kept(lines)|
  {
    hide Step, Inv, Retained, Originals, Texts, ReadLine, Admissible, Run, Continues, FitsFile, FileAfter;
    if lines == [] {
      OriginalsEmpty();
    } else {
      var before, line := lines[..|lines| - 1], lines[|lines| - 1];
      var y := Read(x, before);
      ReadLineCases(y, line);
      SourceExact(x, log, before, file);
      ReadExact(x, log, before);
      RunExact(x, log, New(log, before));
      NotAbandoned(x.file, New(log, before));
      if line.Decoded? {
        RepeatedInLog(y.core, log + New(log, before), line);
        RetainedExact(y, log + New(log, before), line, file, |lines|);
        OriginalsJoin(Source(x, before, file), Retained(y, line, file, |lines|));
        TextsJoin(Source(x, before, file), Retained(y, line, file, |lines|));
      } else {
        RetainsNothing(y, line, file, |lines|);
        assert Source(x, lines, file) == Source(x, before, file);
      }
    }
  }

  lemma OriginalsEmpty()
    ensures Originals([]) == [] && Texts([]) == []
  {
  }

  lemma RetainsNothing(y: At, line: Line, file: string, number: nat)
    requires !line.Decoded?
    ensures Retained(y, line, file, number) == []
  {
  }

  lemma TextsJoin(a: seq<SourceLine>, b: seq<SourceLine>)
    ensures Texts(a + b) == Texts(a) + Texts(b)
  {
  }

  lemma FeedAllSnoc(files: seq<File>)
    requires files != []
    ensures var before, last := FeedAll(FRESH, files[..|files| - 1]), files[|files| - 1];
            var x := At(before.core, SESSION_FILE);
            && FeedAll(FRESH, files).core == Read(x, last.lines).core
            && FeedAll(FRESH, files).duplicates == before.duplicates + CountRepeats(x, last.lines)
            && FeedAll(FRESH, files).source == before.source + Source(x, last.lines, last.name)
  {
  }

  /** Nothing is lost or invented: lines in, lines kept, originals and duplicates all add up. */
  lemma {:induction false} FedSource(files: seq<File>)
    requires FeedAll(FRESH, files).core.errors == []
    ensures Texts(FeedAll(FRESH, files).source) == AllKept(files)
    ensures Originals(FeedAll(FRESH, files).source) == Logged(files)
    ensures FeedAll(FRESH, files).duplicates + |Logged(files)| == |AllKept(files)|
  {
    hide Read, Source, Kept, New, Inv, CountRepeats, Originals, Texts, LawfulRun, Lawful;
    if files == [] {
      OriginalsEmpty();
    } else {
      var before, last := files[..|files| - 1], files[|files| - 1];
      var x := At(FeedAll(FRESH, before).core, SESSION_FILE);
      FeedAllSnoc(files);
      hide FeedAll;
      ReadKeepsErrors(x, last.lines);
      FedSource(before);
      FedExact(before);
      SourceExact(x, Logged(before), last.lines, last.name);
      OriginalsJoin(FeedAll(FRESH, before).source, Source(x, last.lines, last.name));
      TextsJoin(FeedAll(FRESH, before).source, Source(x, last.lines, last.name));
    }
  }

  // ---------------------------------------------------------------- storage order

  datatype Placed = Placed(line: SourceLine, occurrence: nat)

  function Place(lines: seq<SourceLine>): seq<Placed> {
    seq(|lines|, i requires 0 <= i < |lines| => Placed(lines[i], i))
  }

  /** Session id by code unit, then sequence, then event id. */
  predicate KeyLe(a: Event, b: Event) {
    if a.sessionId != b.sessionId then LexLe(a.sessionId, b.sessionId)
    else if a.sequence != b.sequence then a.sequence < b.sequence
    else LexLe(a.eventId, b.eventId)
  }

  predicate SameKey(a: Event, b: Event) {
    a.sessionId == b.sessionId && a.sequence == b.sequence && a.eventId == b.eventId
  }

  predicate PlacedLe(a: Placed, b: Placed) {
    if SameKey(a.line.event, b.line.event) then a.occurrence <= b.occurrence
    else KeyLe(a.line.event, b.line.event)
  }

  function LineOf(p: Placed): SourceLine {
    p.line
  }

  function OrderLines(lines: seq<SourceLine>): seq<SourceLine> {
    Map(Sort(Place(lines), PlacedLe), LineOf)
  }

  lemma KeyTotal(a: Event, b: Event, c: Event)
    ensures KeyLe(a, b) || KeyLe(b, a)
    ensures KeyLe(a, b) && KeyLe(b, a) ==> SameKey(a, b)
    ensures KeyLe(a, b) && KeyLe(b, c) ==> KeyLe(a, c)
  {
    LexTotal(a.sessionId, b.sessionId);
    LexTotal(a.eventId, b.eventId);
    LexTotal(b.sessionId, c.sessionId);
    if LexLe(a.sessionId, b.sessionId) && LexLe(b.sessionId, c.sessionId) {
      LexTransitive(a.sessionId, b.sessionId, c.sessionId);
    }
    if LexLe(a.eventId, b.eventId) && LexLe(b.eventId, c.eventId) {
      LexTransitive(a.eventId, b.eventId, c.eventId);
    }
  }

  lemma PlacedTotal()
    ensures Total(PlacedLe)
  {
    hide KeyLe;
    forall a, b ensures PlacedLe(a, b) || PlacedLe(b, a) {
      KeyTotal(a.line.event, b.line.event, b.line.event);
    }
    forall a, b, c | PlacedLe(a, b) && PlacedLe(b, c) ensures PlacedLe(a, c) {
      PlacedTransitive(a, b, c);
    }
  }

  lemma PlacedTransitive(a: Placed, b: Placed, c: Placed)
    requires PlacedLe(a, b) && PlacedLe(b, c)
    ensures PlacedLe(a, c)
  {
    var x, y, z := a.line.event, b.line.event, c.line.event;
    KeyTotal(x, y, z);
    KeyTotal(x, z, z);
    KeyTotal(y, z, z);
  }

  lemma PlacedKeys(a: Placed, b: Placed)
    requires PlacedLe(a, b)
    ensures KeyLe(a.line.event, b.line.event)
    ensures SameKey(a.line.event, b.line.event) ==> a.occurrence <= b.occurrence
  {
    KeyTotal(a.line.event, b.line.event, b.line.event);
  }

  /** Which line each place of the storage order takes. */
  ghost predicate Rearranges(order: seq<nat>, lines: seq<SourceLine>, ordered: seq<SourceLine>) {
    && |order| == |lines| == |ordered|
    && (forall i | 0 <= i < |order| :: order[i] < |lines| && ordered[i] == lines[order[i]])
    && (forall i, j | 0 <= i < j < |order| :: order[i] != order[j])
  }

  /** By key, and lines of one key in the order they were read. */
  ghost predicate StorageOrder(order: seq<nat>, ordered: seq<SourceLine>) {
    forall i, j | 0 <= i < j < |order| && j < |ordered| ::
      && KeyLe(ordered[i].event, ordered[j].event)
      && (SameKey(ordered[i].event, ordered[j].event) ==> order[i] < order[j])
  }

  function OccurrenceOf(p: Placed): nat {
    p.occurrence
  }

  lemma SortedPlaces(lines: seq<SourceLine>)
    ensures var sorted := Sort(Place(lines), PlacedLe);
            && |sorted| == |lines|
            && (forall i | 0 <= i < |sorted| :: sorted[i].occurrence < |lines| && sorted[i].line == lines[sorted[i].occurrence])
            && (forall i, j | 0 <= i < j < |sorted| :: PlacedLe(sorted[i], sorted[j]) && sorted[i].occurrence != sorted[j].occurrence)
  {
    hide KeyLe, PlacedLe, Sort;
    var placed := Place(lines);
    var sorted := Sort(placed, PlacedLe);
    PlacedTotal();
    SortSorts(placed, PlacedLe);
    SortKeeps(placed, PlacedLe);
    MultisetDistinct(placed, sorted);
    forall i | 0 <= i < |sorted| ensures sorted[i] in placed { assert sorted[i] in sorted; }
  }

  /**
   * Storage order rearranges the lines by session, sequence and event id, loses none, and keeps
   * lines of one key in the order they were read, so a repetition stands after its original.
   */
  lemma OrderedShape(lines: seq<SourceLine>)
    ensures multiset(OrderLines(lines)) == multiset(lines) && |OrderLines(lines)| == |lines|
    ensures forall i, j | 0 <= i < j < |OrderLines(lines)| :: KeyLe(OrderLines(lines)[i].event, OrderLines(lines)[j].event)
    ensures exists order :: Rearranges(order, lines, OrderLines(lines)) && StorageOrder(order, OrderLines(lines))
  {
    hide KeyLe, PlacedLe, Sort, Map, SameKey;
    var placed := Place(lines);
    var sorted := Sort(placed, PlacedLe);
    SortKeeps(placed, PlacedLe);
    MapKeeps(sorted, placed, LineOf);
    MapAt(placed, LineOf);
    MapAt(sorted, LineOf);
    MapAt(sorted, OccurrenceOf);
    assert Map(placed, LineOf) == lines;
    SortedPlaces(lines);
    var order := Map(sorted, OccurrenceOf);
    forall i, j | 0 <= i < j < |sorted|
      ensures KeyLe(sorted[i].line.event, sorted[j].line.event)
      ensures SameKey(sorted[i].line.event, sorted[j].line.event) ==> order[i] < order[j]
    {
      PlacedKeys(sorted[i], sorted[j]);
    }
    assert Rearranges(order, lines, OrderLines(lines)) && StorageOrder(order, OrderLines(lines));
  }

  // ---------------------------------------------------------------- the content fingerprint

  const FINGERPRINT_TAG := "qe-report-run-fingerprint/1\n"

  function Concat(parts: seq<string>): string {
    if parts == [] then [] else Concat(parts[..|parts| - 1]) + parts[|parts| - 1]
  }

  /** The text the fingerprint hashes: a version tag and the sorted distinct digests. */
  function Preimage(source: seq<SourceLine>, digest: Event -> string): string {
    FINGERPRINT_TAG + Concat(SortedSet(Map(Originals(source), digest)))
  }

  function Fingerprint(source: seq<SourceLine>, digest: Event -> string, hash: string -> string): string {
    hash(Preimage(source, digest))
  }

  /** The digests are of one width and tell the events of the two sources apart. */
  ghost predicate GoodDigest(digest: Event -> string, width: nat, a: seq<Event>, b: seq<Event>) {
    && width > 0
    && (forall e | e in a + b :: |digest(e)| == width)
    && (forall e, f | e in a + b && f in a + b && digest(e) == digest(f) :: e == f)
  }

  lemma {:induction false} ConcatInjective(a: seq<string>, b: seq<string>, width: nat)
    requires width > 0 && Concat(a) == Concat(b)
    requires (forall x | x in a :: |x| == width) && (forall x | x in b :: |x| == width)
    ensures a == b
  {
    ConcatLength(a, width);
    ConcatLength(b, width);
    if a != [] && b != [] {
      var x, y := a[|a| - 1], b[|b| - 1];
      var p, q := Concat(a[..|a| - 1]), Concat(b[..|b| - 1]);
      assert x in a && y in b;
      assert p + x == q + y;
      assert |p| == |q|;
      assert p == (p + x)[..|p|] && q == (q + y)[..|q|];
      assert x == (p + x)[|p|..] && y == (q + y)[|q|..];
      ConcatInjective(a[..|a| - 1], b[..|b| - 1], width);
      assert a == a[..|a| - 1] + [x] && b == b[..|b| - 1] + [y];
    }
  }

  lemma {:induction false} ConcatLength(a: seq<string>, width: nat)
    requires forall x | x in a :: |x| == width
    ensures |Concat(a)| == |a| * width
  {
    if a != [] {
      var before, last := a[..|a| - 1], a[|a| - 1];
      ConcatLength(before, width);
      assert last in a;
      calc {
        |Concat(a)|;
        |before| * width + width;
        (|before| + 1) * width;
      }
    }
  }

  lemma MapMembers<T, U>(s: seq<T>, f: T -> U, y: U)
    ensures y in Map(s, f) <==> exists x | x in s :: f(x) == y
  {
    MapAt(s, f);
    if x :| x in s && f(x) == y {
      var i :| 0 <= i < |s| && s[i] == x;
      assert Map(s, f)[i] == y;
    }
  }

  /** The fingerprint looks only at which events there are. */
  lemma SameEventsSamePreimage(a: seq<SourceLine>, b: seq<SourceLine>, digest: Event -> string)
    requires Meaning.SameEvents(Originals(a), Originals(b))
    ensures Preimage(a, digest) == Preimage(b, digest)
  {
    hide SortedSet, Map, Originals;
    var p, q := Map(Originals(a), digest), Map(Originals(b), digest);
    forall y ensures y in p <==> y in q {
      MapMembers(Originals(a), digest, y);
      MapMembers(Originals(b), digest, y);
    }
    SortedSetUnique(p, q);
  }

  lemma PreimageDigests(source: seq<SourceLine>, digest: Event -> string, width: nat)
    requires forall e | e in Originals(source) :: |digest(e)| == width
    ensures forall x | x in SortedSet(Map(Originals(source), digest)) :: |x| == width
  {
    hide SortedSet, Map, Originals;
    var p := Map(Originals(source), digest);
    SortedSetShape(p);
    forall x | x in SortedSet(p) ensures |x| == width { MapMembers(Originals(source), digest, x); }
  }

  lemma DigestSubset(a: seq<SourceLine>, b: seq<SourceLine>, digest: Event -> string, width: nat, e: Event)
    requires GoodDigest(digest, width, Originals(a), Originals(b))
    requires SortedSet(Map(Originals(a), digest)) == SortedSet(Map(Originals(b), digest))
    requires e in Originals(a)
    ensures e in Originals(b)
  {
    hide SortedSet, Map, Originals;
    var p, q := Map(Originals(a), digest), Map(Originals(b), digest);
    SortedSetShape(p);
    SortedSetShape(q);
    MapMembers(Originals(a), digest, digest(e));
    assert digest(e) in p;
    assert digest(e) in SortedSet(p);
    MapMembers(Originals(b), digest, digest(e));
    var f :| f in Originals(b) && digest(f) == digest(e);
    assert e in Originals(a) + Originals(b) && f in Originals(a) + Originals(b);
  }

  /**
   * The fingerprint determines the content: without collisions among the texts at hand, two
   * sources have one fingerprint exactly when they hold the same events.
   */
  lemma FingerprintExact(a: seq<SourceLine>, b: seq<SourceLine>, digest: Event -> string, hash: string -> string, width: nat)
    requires GoodDigest(digest, width, Originals(a), Originals(b))
    requires hash(Preimage(a, digest)) == hash(Preimage(b, digest)) ==> Preimage(a, digest) == Preimage(b, digest)
    ensures Fingerprint(a, digest, hash) == Fingerprint(b, digest, hash) <==> Meaning.SameEvents(Originals(a), Originals(b))
  {
    hide SortedSet, Map, Originals, Concat;
    if Meaning.SameEvents(Originals(a), Originals(b)) {
      SameEventsSamePreimage(a, b, digest);
    }
    if Preimage(a, digest) == Preimage(b, digest) {
      var p, q := SortedSet(Map(Originals(a), digest)), SortedSet(Map(Originals(b), digest));
      assert Concat(p) == Preimage(a, digest)[|FINGERPRINT_TAG|..];
      assert Concat(q) == Preimage(b, digest)[|FINGERPRINT_TAG|..];
      forall e | e in Originals(a) + Originals(b) ensures |digest(e)| == width {}
      PreimageDigests(a, digest, width);
      PreimageDigests(b, digest, width);
      ConcatInjective(p, q, width);
      GoodDigestSymmetric(digest, width, Originals(a), Originals(b));
      forall e ensures e in Originals(a) <==> e in Originals(b) {
        if e in Originals(a) { DigestSubset(a, b, digest, width, e); }
        if e in Originals(b) { DigestSubset(b, a, digest, width, e); }
      }
    }
  }

  lemma GoodDigestSymmetric(digest: Event -> string, width: nat, a: seq<Event>, b: seq<Event>)
    requires GoodDigest(digest, width, a, b)
    ensures GoodDigest(digest, width, b, a)
  {
    assert forall e :: e in a + b <==> e in b + a;
  }

  /** Two runs fed without error with one fingerprint are one run: the same state, hence the same summary. */
  lemma FingerprintDeterminesRun(fs: seq<File>, gs: seq<File>, digest: Event -> string, hash: string -> string, width: nat)
    requires FeedAll(FRESH, fs).core.errors == [] && FeedAll(FRESH, gs).core.errors == []
    requires GoodDigest(digest, width, Logged(fs), Logged(gs))
    requires var a, b := FeedAll(FRESH, fs).source, FeedAll(FRESH, gs).source;
             hash(Preimage(a, digest)) == hash(Preimage(b, digest)) ==> Preimage(a, digest) == Preimage(b, digest)
    requires Fingerprint(FeedAll(FRESH, fs).source, digest, hash) == Fingerprint(FeedAll(FRESH, gs).source, digest, hash)
    ensures FeedAll(FRESH, fs).core == FeedAll(FRESH, gs).core
    ensures var a, b := Summarize(FeedAll(FRESH, fs)), Summarize(FeedAll(FRESH, gs));
            a == b.(files := a.files, duplicates := a.duplicates)
  {
    hide FeedAll, Preimage, Fingerprint, Logged, Originals, DerivedVerdict, Complete, GoodDigest;
    FedSource(fs);
    FedSource(gs);
    FingerprintExact(FeedAll(FRESH, fs).source, FeedAll(FRESH, gs).source, digest, hash, width);
    Meaning.SameEventsSameReport(fs, gs);
  }

  // ---------------------------------------------------------------- required blobs

  datatype Blob = Blob(sha256: nat, sizeBytes: nat)

  /** Some event declares this object. */
  predicate Declared(events: seq<Event>, sha256: nat, sizeBytes: nat) {
    exists e | e in events ::
      e.payload.AttachmentAdded? && e.payload.sha256 == sha256 && e.payload.sizeBytes == sizeBytes
  }

  /** One hash is declared with two sizes. */
  ghost predicate SizeConflict(events: seq<Event>) {
    exists h, m, n :: Declared(events, h, m) && Declared(events, h, n) && m != n
  }

  lemma DeclaredSnoc(events: seq<Event>, i: nat, h: nat, n: nat)
    requires i < |events|
    ensures Declared(events[..i + 1], h, n) <==>
            || Declared(events[..i], h, n)
            || (events[i].payload.AttachmentAdded? && events[i].payload.sha256 == h && events[i].payload.sizeBytes == n)
  {
    assert events[..i + 1] == events[..i] + [events[i]];
    assert events[i] in events[..i + 1];
    if e :| e in events[..i] && e.payload.AttachmentAdded? && e.payload.sha256 == h && e.payload.sizeBytes == n {
      assert e in events[..i + 1];
    }
  }

  /** The entries of the size table, by hash. */
  method SortedBlobs(sizes: map<nat, nat>) returns (blobs: seq<Blob>)
    ensures forall b :: b in blobs <==> b.sha256 in sizes && sizes[b.sha256] == b.sizeBytes
    ensures forall i, j | 0 <= i < j < |blobs| :: blobs[i].sha256 < blobs[j].sha256
  {
    blobs := [];
    var left := sizes;
    while left != map[]
      invariant left.Keys <= sizes.Keys && forall h | h in left :: left[h] == sizes[h]
      invariant forall b :: b in blobs <==> b.sha256 in sizes && b.sha256 !in left && sizes[b.sha256] == b.sizeBytes
      invariant forall i, j | 0 <= i < j < |blobs| :: blobs[i].sha256 < blobs[j].sha256
      invariant forall b, h | b in blobs && h in left :: b.sha256 < h
      decreases |left|
    {
      var h := Least(left.Keys);
      blobs := blobs + [Blob(h, left[h])];
      left := left - {h};
    }
  }

  method Least(s: set<nat>) returns (h: nat)
    requires s != {}
    ensures h in s && forall k | k in s :: h <= k
  {
    var left := s;
    h :| h in left;
    left := left - {h};
    while left != {}
      invariant left <= s && h in s && forall k | k in s && k !in left :: h <= k
      decreases |left|
    {
      var k :| k in left;
      if k < h { h := k; }
      left := left - {k};
    }
  }

  /** The size declared for each hash, by the last event that declares one. */
  function Sizes(events: seq<Event>): map<nat, nat> {
    if events == [] then map[]
    else
      var before, p := Sizes(events[..|events| - 1]), events[|events| - 1].payload;
      if p.AttachmentAdded? then before[p.sha256 := p.sizeBytes] else before
  }

  /** Without a conflict that is every declaration and nothing else. */
  lemma {:induction false} SizesDeclared(events: seq<Event>)
    requires !SizeConflict(events)
    ensures Tabled(Sizes(events), events)
  {
    if events != [] {
      var i := |events| - 1;
      assert events[..|events|] == events;
      forall h, m, n | Declared(events[..i], h, m) && Declared(events[..i], h, n) ensures m == n {
        DeclaredStays(events, i, h, m);
        DeclaredStays(events, i, h, n);
      }
      SizesDeclared(events[..i]);
      var p := events[i].payload;
      if p.AttachmentAdded? && p.sha256 in Sizes(events[..i]) {
        DeclaredStays(events, i, p.sha256, Sizes(events[..i])[p.sha256]);
        DeclaredSnoc(events, i, p.sha256, p.sizeBytes);
      }
      TabledSnoc(Sizes(events[..i]), events, i);
    }
  }

  /** The same events declare the same objects. */
  lemma SameEventsSameSizes(a: seq<Event>, b: seq<Event>)
    requires Meaning.SameEvents(a, b) && !SizeConflict(a)
    ensures !SizeConflict(b) && Sizes(a) == Sizes(b)
  {
    assert forall h, n :: Declared(a, h, n) <==> Declared(b, h, n);
    SizesDeclared(a);
    SizesDeclared(b);
    forall h ensures h in Sizes(a) <==> h in Sizes(b) {
      assert h in Sizes(a) ==> Declared(a, h, Sizes(a)[h]);
      assert h in Sizes(b) ==> Declared(b, h, Sizes(b)[h]);
    }
    forall h | h in Sizes(a) ensures Sizes(a)[h] == Sizes(b)[h] {
      assert Declared(a, h, Sizes(a)[h]) && Declared(b, h, Sizes(a)[h]);
    }
  }

  /** The distinct objects the events declare, by hash; nothing when one hash carries two sizes. */
  method RequiredBlobs(events: seq<Event>) returns (blobs: Option<seq<Blob>>)
    ensures blobs.None? <==> SizeConflict(events)
    ensures blobs.Some? ==> forall b :: b in blobs.value <==> Declared(events, b.sha256, b.sizeBytes)
    ensures blobs.Some? ==> forall i, j | 0 <= i < j < |blobs.value| :: blobs.value[i].sha256 < blobs.value[j].sha256
    ensures blobs.Some? ==> forall b :: b in blobs.value <==> b.sha256 in Sizes(events) && Sizes(events)[b.sha256] == b.sizeBytes
  {
    var sizes: map<nat, nat> := map[];
    for i := 0 to |events|
      invariant Tabled(sizes, events[..i]) && sizes == Sizes(events[..i])
    {
      var p := events[i].payload;
      assert events[..i + 1][..i] == events[..i];
      if p.AttachmentAdded? {
        if p.sha256 in sizes && sizes[p.sha256] != p.sizeBytes {
          assert Declared(events[..i], p.sha256, sizes[p.sha256]);
          DeclaredStays(events, i, p.sha256, sizes[p.sha256]);
          DeclaredSnoc(events, i, p.sha256, p.sizeBytes);
          DeclaredStays(events, i + 1, p.sha256, p.sizeBytes);
          return None;
        }
        TabledSnoc(sizes, events, i);
        sizes := sizes[p.sha256 := p.sizeBytes];
      } else {
        TabledSnoc(sizes, events, i);
      }
    }
    assert events[..|events|] == events;
    var sorted := SortedBlobs(sizes);
    blobs := Some(sorted);
  }

  ghost predicate Tabled(sizes: map<nat, nat>, events: seq<Event>) {
    && (forall h, n: nat | Declared(events, h, n) :: h in sizes && sizes[h] == n)
    && (forall h | h in sizes :: Declared(events, h, sizes[h]))
  }

  lemma TabledSnoc(sizes: map<nat, nat>, events: seq<Event>, i: nat)
    requires i < |events| && Tabled(sizes, events[..i])
    ensures var p := events[i].payload;
            if p.AttachmentAdded? && (p.sha256 in sizes ==> sizes[p.sha256] == p.sizeBytes)
            then Tabled(sizes[p.sha256 := p.sizeBytes], events[..i + 1])
            else !p.AttachmentAdded? ==> Tabled(sizes, events[..i + 1])
  {
    var p, next := events[i].payload, events[..i + 1];
    if p.AttachmentAdded? ==> p.sha256 in sizes ==> sizes[p.sha256] == p.sizeBytes {
      var after := if p.AttachmentAdded? then sizes[p.sha256 := p.sizeBytes] else sizes;
      forall h: nat, n: nat | Declared(next, h, n) ensures h in after && after[h] == n {
        DeclaredSnoc(events, i, h, n);
      }
      forall h | h in after ensures Declared(next, h, after[h]) {
        DeclaredSnoc(events, i, h, after[h]);
      }
    }
  }

  lemma DeclaredStays(events: seq<Event>, i: nat, h: nat, n: nat)
    requires i <= |events| && Declared(events[..i], h, n)
    ensures Declared(events, h, n)
  {
    var e :| e in events[..i] && e.payload.AttachmentAdded? && e.payload.sha256 == h && e.payload.sizeBytes == n;
    assert e in events;
  }
}
