/**
 The event stream of one cell (lbc-dashboard/server.ts) and the summary cache it warms
 (lbc-dashboard/src/store.ts). Offsets count characters: reads are taken to fall on character boundaries.
 */
module EventTail {
  import opened Optional
  import opened Strings
  import opened EventText

  // --- the summary of a log ---

  datatype CellStatus = CellActive | CellEnded | CellFailed | CellCancelled
  datatype Summary = Summary(eventCount: nat, status: CellStatus, firstStarted: Option<Payload>, tailKinds: seq<Kind>)

  function Kinds(events: seq<CellEvent>): seq<Kind> {
    seq(|events|, i requires 0 <= i < |events| => events[i].kind)
  }

  function TailKinds(kinds: seq<Kind>): seq<Kind> {
    if |kinds| <= 2 then kinds else kinds[|kinds| - 2..]
  }

  function ClassifyStatus(kinds: seq<Kind>): CellStatus {
    if kinds == [] then CellActive else
      var last := kinds[|kinds| - 1];
      if last == IncrementalTerminated then CellEnded
      else if last == CellCancelledKind || last == RunCancelled then CellCancelled
      else if last == CellFailedKind then CellFailed
      else if last == ConsensusRejected || last == ProposalRejected then CellFailed
      else if last == ProposalApplied && |kinds| > 1 && kinds[|kinds| - 2] == ProposalPicked then CellEnded
      else CellActive
  }

  function StartedPayload(event: CellEvent): Option<Payload> {
    if event.kind == IncrementalStarted && event.payload.ObjectPayload? then Some(event.payload) else None
  }

  function OrElse(first: Option<Payload>, second: Option<Payload>): Option<Payload> {
    if first.Some? then first else second
  }

  function FirstStarted(events: seq<CellEvent>): Option<Payload> {
    if events == [] then None else
      OrElse(FirstStarted(events[..|events| - 1]), StartedPayload(events[|events| - 1]))
  }

  /** What a full re-read reports for these events. */
  function SummaryOf(events: seq<CellEvent>): Summary {
    Summary(|events|, ClassifyStatus(Kinds(events)), FirstStarted(events), TailKinds(Kinds(events)))
  }

  ghost predicate Starts(event: CellEvent) {
    event.kind == IncrementalStarted && event.payload.ObjectPayload?
  }

  /** What a summary says of the events, read off the events themselves. */
  ghost predicate Summarizes(summary: Summary, events: seq<CellEvent>) {
    && summary.eventCount == |events|
    && |summary.tailKinds| == (if |events| < 2 then |events| else 2)
    && (forall i :: 0 <= i < |summary.tailKinds|
                    ==> summary.tailKinds[i] == events[|events| - |summary.tailKinds| + i].kind)
    && FirstStartIs(summary.firstStarted, events) && StatusIs(summary.status, events)
  }

  ghost predicate FirstStartIs(first: Option<Payload>, events: seq<CellEvent>) {
    match first
    case None => forall i :: 0 <= i < |events| ==> !Starts(events[i])
    case Some(payload) => exists i :: 0 <= i < |events| && Starts(events[i]) && events[i].payload == payload
                                      && forall j :: 0 <= j < i ==> !Starts(events[j])
  }

  /** The status depends on the last event, and on the one before it only for an applied proposal. */
  ghost predicate StatusIs(status: CellStatus, events: seq<CellEvent>) {
    var n := |events|;
    if n == 0 then status == CellActive else
      var last := events[n - 1].kind;
      && (status == CellEnded <==> || last == IncrementalTerminated
                                   || (last == ProposalApplied && n > 1 && events[n - 2].kind == ProposalPicked))
      && (status == CellCancelled <==> last == CellCancelledKind || last == RunCancelled)
      && (status == CellFailed <==> last == CellFailedKind || last == ConsensusRejected || last == ProposalRejected)
  }

  lemma {:induction false} FirstStartedIs(events: seq<CellEvent>)
    ensures FirstStartIs(FirstStarted(events), events)
  {
    if events != [] {
      var k := |events| - 1;
      var before := events[..k];
      FirstStartedIs(before);
      assert forall i :: 0 <= i < k ==> before[i] == events[i];
      if FirstStarted(before).Some? {
        var i :| 0 <= i < k && Starts(before[i]) && before[i].payload == FirstStarted(before).value
                 && forall j :: 0 <= j < i ==> !Starts(before[j]);
        assert Starts(events[i]);
      }
    }
  }

  lemma SummaryOfSummarizes(events: seq<CellEvent>)
    ensures Summarizes(SummaryOf(events), events)
  {
    FirstStartedIs(events);
  }

  /** summaryPartsFromEvents: one pass over the events. */
  method SummaryParts(events: seq<CellEvent>) returns (summary: Summary)
    ensures summary == SummaryOf(events) && Summarizes(summary, events)
  {
    SummaryOfSummarizes(events);
    var kinds: seq<Kind> := [];
    var started: Option<Payload> := None;
    for i := 0 to |events|
      invariant kinds == Kinds(events[..i]) && started == FirstStarted(events[..i])
    {
      assert events[..i + 1][..i] == events[..i];
      kinds := kinds + [events[i].kind];
      if started.None? {
        started := StartedPayload(events[i]);
      }
    }
    assert events[..|events|] == events;
    return Summary(|kinds|, ClassifyStatus(kinds), started, TailKinds(kinds));
  }

  /** The append branch of the cache update, from the old entry and the summary of the new events. */
  function Combine(cached: Summary, parts: Summary): Summary {
    var tail := TailKinds(cached.tailKinds + parts.tailKinds);
    Summary(cached.eventCount + parts.eventCount, ClassifyStatus(tail),
            OrElse(cached.firstStarted, parts.firstStarted), tail)
  }

  lemma {:induction false} FirstStartedAppend(a: seq<CellEvent>, b: seq<CellEvent>)
    ensures FirstStarted(a + b) == OrElse(FirstStarted(a), FirstStarted(b))
  {
    if b == [] {
      assert a + b == a;
    } else {
      var k := |b| - 1;
      assert (a + b)[..|a + b| - 1] == a + b[..k];
      FirstStartedAppend(a, b[..k]);
    }
  }

  /** Two kinds are enough: the tail and the status of a concatenation depend only on the two tails. */
  lemma TailSuffices(a: seq<Kind>, b: seq<Kind>)
    ensures TailKinds(TailKinds(a) + TailKinds(b)) == TailKinds(a + b)
    ensures ClassifyStatus(TailKinds(a + b)) == ClassifyStatus(a + b)
  {
    var both := TailKinds(a) + TailKinds(b);
    assert |TailKinds(both)| == |TailKinds(a + b)|;
  }

  lemma KindsAppend(a: seq<CellEvent>, b: seq<CellEvent>)
    ensures Kinds(a + b) == Kinds(a) + Kinds(b)
  {
  }

  /** Appending to the cached summary gives the summary of the whole. */
  lemma CombineIsSummary(a: seq<CellEvent>, b: seq<CellEvent>)
    ensures Combine(SummaryOf(a), SummaryOf(b)) == SummaryOf(a + b)
  {
    KindsAppend(a, b);
    TailSuffices(Kinds(a), Kinds(b));
    FirstStartedAppend(a, b);
  }

  // --- reading what was appended ---

  datatype Chunk = Chunk(newLines: seq<string>, nextOffset: nat, nextLeftover: string, didReset: bool)

  /** The text a reader at the end of `seen` takes the file to hold: a shorter file is read afresh. */
  function Observed(seen: string, file: Option<string>): string {
    if file.None? then seen
    else if |file.value| < |seen| then file.value
    else seen + file.value[|seen|..]
  }

  /** The reader sees the file as it is exactly after an append or a truncation below the old offset. */
  lemma ObservedIsFile(seen: string, file: string)
    ensures Observed(seen, Some(file)) == file <==> seen <= file || |file| < |seen|
  {
    if seen <= file {
      assert seen + file[|seen|..] == file;
    }
  }

  /** What reading from the end of `seen` must return. */
  ghost predicate IsNextChunk(seen: string, file: Option<string>, chunk: Chunk) {
    && (chunk.didReset <==> file.Some? && |file.value| < |seen|)
    && chunk.nextOffset == |Observed(seen, file)| && chunk.nextLeftover == Unfinished(Observed(seen, file))
    && chunk.newLines == if file.None? then [] else
         NonBlank(CompleteLines(if chunk.didReset then file.value else Unfinished(seen) + file.value[|seen|..]))
  }

  /** So the events of its lines are the ones a full re-read would find in addition, or all of them after a reset. */
  lemma ChunkHoldsNewEvents(parse: Parser, seen: string, file: Option<string>, chunk: Chunk)
    requires IsNextChunk(seen, file, chunk)
    ensures Events(parse, Observed(seen, file))
            == (if chunk.didReset then [] else Events(parse, seen)) + ParseAll(parse, chunk.newLines)
    ensures |seen| == 0 ==> Events(parse, seen) == []
  {
    if file.Some? && !chunk.didReset {
      EventsAppend(parse, seen, file.value[|seen|..]);
    }
  }

  /** From an offset and carry that describe `seen`, the chunk describes what is observed next. */
  method ReadNewLines(file: Option<string>, fromOffset: nat, leftover: string,
                      ghost seen: string) returns (chunk: Chunk)
    requires fromOffset == |seen| && leftover == Unfinished(seen)
    ensures IsNextChunk(seen, file, chunk)
  {
    if file.None? {
      return Chunk([], fromOffset, leftover, false);
    }
    var size := |file.value|;
    var start, carry, didReset := fromOffset, leftover, false;
    ghost var base := seen;
    if size < start {
      start, carry, didReset := 0, "", true;
      base := "";
    }
    NoNewlineLeft(base);
    assert Observed(seen, file) == base + file.value[start..] by { assert "" + file.value == file.value; }
    chunk := ReadOn(file.value[start..], carry, size, didReset, base);
  }

  /** What follows the text `base`, of which `carry` is the unfinished line, is `more`. */
  method ReadOn(more: string, carry: string, size: nat, didReset: bool, ghost base: string) returns (chunk: Chunk)
    requires carry == Unfinished(base) && CompleteLines(carry) == []
    ensures chunk == Chunk(NonBlank(CompleteLines(carry + more)), size, Unfinished(base + more), didReset)
  {
    hide Split;
    ReadInPieces(base, more);
    if more == "" {
      assert base + more == base && carry + more == carry;
      return Chunk([], size, carry, didReset);
    }
    var text := carry + more;
    var last := LastIndexOfNewline(text);
    if last == -1 {
      assert text[last + 1..] == text;
      NoCompleteLine(text);
      return Chunk([], size, text, didReset);
    }
    SplitAtLastNewline(text, last);
    return Chunk(NonBlank(Split('\n', text[..last])), size, text[last + 1..], didReset);
  }

  /** What a first read of the file finds. */
  function FirstLines(file: Option<string>): seq<string> {
    if file.None? then [] else NonBlank(CompleteLines(file.value))
  }

  /** The same read, seen as events: the new ones, or all of them after a reset. */
  method ReadNewEvents(parse: Parser, file: Option<string>, fromOffset: nat, leftover: string, ghost seen: string)
    returns (chunk: Chunk, ghost base: seq<CellEvent>, ghost all: seq<CellEvent>)
    requires fromOffset == |seen| && leftover == Unfinished(seen)
    ensures chunk.didReset <==> file.Some? && |file.value| < |seen|
    ensures chunk.nextOffset == |Observed(seen, file)| && chunk.nextLeftover == Unfinished(Observed(seen, file))
    ensures base == (if chunk.didReset then [] else Events(parse, seen)) && all == Events(parse, Observed(seen, file))
    ensures all == base + ParseAll(parse, chunk.newLines)
    ensures fromOffset == 0 ==> base == [] && chunk.newLines == FirstLines(file)
    ensures chunk.newLines == [] ==> all == base
  {
    chunk := ReadNewLines(file, fromOffset, leftover, seen);
    assert fromOffset == 0 && file.Some? ==> "" + file.value[0..] == file.value;
    ChunkHoldsNewEvents(parse, seen, file, chunk);
    base, all := (if chunk.didReset then [] else Events(parse, seen)), Events(parse, Observed(seen, file));
  }

  /** The unfinished text holds no complete line. */
  lemma {:induction false} NoNewlineLeft(text: string)
    ensures CompleteLines(Unfinished(text)) == [] && Unfinished(Unfinished(text)) == Unfinished(text)
    decreases |text|
  {
    var k := IndexOf('\n', text);
    if k < |text| {
      NoNewlineLeft(text[k + 1..]);
    }
  }

  // --- the stream ---

  /** One SSE frame: `id:` and the event. */
  datatype Frame = Frame(id: nat, event: CellEvent)

  /** The frames for `events` numbered from `first`, leaving out ids up to `resumeAfter`. */
  function Frames(events: seq<CellEvent>, first: nat, resumeAfter: int): seq<Frame> {
    if events == [] then [] else
      var k := |events| - 1;
      Frames(events[..k], first, resumeAfter)
      + if first + k > resumeAfter then [Frame(first + k, events[k])] else []
  }

  lemma {:induction false} FramesAppend(a: seq<CellEvent>, b: seq<CellEvent>, first: nat, resumeAfter: int)
    ensures Frames(a + b, first, resumeAfter) == Frames(a, first, resumeAfter) + Frames(b, first + |a|, resumeAfter)
  {
    if b == [] {
      assert a + b == a;
    } else {
      var k := |b| - 1;
      assert (a + b)[..|a + b| - 1] == a + b[..k];
      FramesAppend(a, b[..k], first, resumeAfter);
    }
  }

  /** The cache entry is the summary of these events; an absent entry stands for no events. */
  ghost predicate Agrees(cache: Option<Summary>, events: seq<CellEvent>) {
    if cache.None? then events == [] else cache.value == SummaryOf(events)
  }

  /** Replacing forgets what was inherited; appending, or leaving the entry alone, keeps it. */
  lemma AgreementKept(cache: Option<Summary>, inherited: seq<CellEvent>, was: seq<CellEvent>, base: seq<CellEvent>,
                      events: seq<CellEvent>, warmed: bool, replace: bool, inherited': seq<CellEvent>)
    requires if warmed then Agrees(cache, if replace then events else inherited + was + events)
             else Agrees(cache, inherited + was) && events == [] && base == was
    requires base == if replace then [] else was
    requires inherited' == if warmed && replace then [] else inherited
    ensures Agrees(cache, inherited' + (base + events))
  {
    hide Agrees;
    assert inherited + was + events == inherited + (was + events);
    assert [] + ([] + events) == events;
    assert was + [] == was;
  }

  /** Reading this file makes a stream replace the cache entry: after a reset, or on a first read that finds lines. */
  predicate ReplacesAt(seen: string, file: Option<string>) {
    file.Some? && (|file.value| < |seen| || (seen == "" && FirstLines(file) != []))
  }

  /**
   One connection, the only writer of its cache entry. `seen` is the text it has taken the log to hold, and
   `inherited` are the events an entry left by an earlier connection still counts beside it.
   */
  class TailStream {
    const parse: Parser
    const resumeAfter: int
    var sentCount: nat
    var lastSize: nat
    var leftover: string
    var cache: Option<Summary>
    var written: seq<Frame>
    ghost var seen: string
    ghost var inherited: seq<CellEvent>
    ghost var truncated: bool

    ghost predicate Valid()
      reads this
    {
      && lastSize == |seen| && leftover == Unfinished(seen)
      && Agrees(cache, inherited + Events(parse, seen))
      && (!truncated ==> sentCount == |Events(parse, seen)| && written == Frames(Events(parse, seen), 0, resumeAfter))
    }

    /** Whatever entry the cache holds is the summary of some events: those of the log as it once was. */
    constructor (parse: Parser, resumeAfter: int, cache: Option<Summary>, ghost inherited: seq<CellEvent>)
      requires Agrees(cache, inherited)
      ensures Valid() && seen == "" && !truncated && this.parse == parse && this.resumeAfter == resumeAfter
      ensures this.inherited == inherited
    {
      this.parse, this.resumeAfter, this.cache := parse, resumeAfter, cache;
      sentCount, lastSize, leftover, written := 0, 0, "", [];
      seen, truncated, this.inherited := "", false, inherited;
      assert inherited + [] == inherited;
    }

    /** warmSummaryCacheFromEventLines, for the entry of this stream; `before` are the events it stands for. */
    method WarmSummaryCache(lines: seq<string>, replace: bool, ghost before: seq<CellEvent>)
      returns (events: seq<CellEvent>)
      requires Agrees(cache, before)
      modifies this`cache
      ensures events == ParseAll(parse, lines)
      ensures Agrees(cache, if replace then events else before + events)
    {
      events := ParseAll(parse, lines);
      var parts := SummaryParts(events);
      if replace {
        cache := Some(parts);
        return;
      }
      var cached := if cache.Some? then cache.value else Summary(0, CellActive, None, []);
      assert cached == SummaryOf(before);
      CombineIsSummary(before, events);
      cache := Some(Combine(cached, parts));
    }

    method WriteFrames(events: seq<CellEvent>)
      modifies this`sentCount, this`written
      ensures sentCount == old(sentCount) + |events|
      ensures written == old(written) + Frames(events, old(sentCount), resumeAfter)
    {
      for i := 0 to |events|
        invariant sentCount == old(sentCount) + i
        invariant written == old(written) + Frames(events[..i], old(sentCount), resumeAfter)
      {
        assert events[..i + 1][..i] == events[..i];
        if sentCount > resumeAfter {
          written := written + [Frame(sentCount, events[i])];
        }
        sentCount := sentCount + 1;
      }
      assert events[..|events|] == events;
    }

    /** Reads what is new and brings the cache up to date; returns the events to be sent. */
    method Absorb(file: Option<string>) returns (events: seq<CellEvent>, didReset: bool)
      requires lastSize == |seen| && leftover == Unfinished(seen) && Agrees(cache, inherited + Events(parse, seen))
      modifies this`lastSize, this`leftover, this`cache, this`seen, this`inherited
      ensures lastSize == |seen| && leftover == Unfinished(seen) && Agrees(cache, inherited + Events(parse, seen))
      ensures seen == Observed(old(seen), file) && (didReset <==> file.Some? && |file.value| < |old(seen)|)
      ensures inherited == if ReplacesAt(old(seen), file) then [] else old(inherited)
      ensures Events(parse, seen) == (if didReset then [] else Events(parse, old(seen))) + events
    {
      hide Agrees, Events, Observed, Unfinished;
      ghost var was, before := Events(parse, seen), inherited;
      var chunk, base, all := ReadNewEvents(parse, file, lastSize, leftover, seen);
      var replace := chunk.didReset || lastSize == 0;
      lastSize := chunk.nextOffset;
      leftover := chunk.nextLeftover;
      events, didReset := [], chunk.didReset;
      if chunk.didReset || |chunk.newLines| > 0 {
        events := WarmSummaryCache(chunk.newLines, replace, inherited + was);
      }
      assert all == base + events;
      inherited := if ReplacesAt(seen, file) then [] else inherited;
      AgreementKept(cache, before, was, base, events, chunk.didReset || |chunk.newLines| > 0, replace, inherited);
      seen := Observed(seen, file);
    }

    /** One pass of the tail loop against the current file (`None` while it does not exist). */
    method Tick(file: Option<string>)
      requires Valid()
      modifies this
      ensures Valid()
      ensures seen == Observed(old(seen), file)
      ensures inherited == if ReplacesAt(old(seen), file) then [] else old(inherited)
      ensures truncated <==> old(truncated) || (file.Some? && |file.value| < |old(seen)|)
    {
      hide Agrees, Events, Frames, Observed, Unfinished, ReplacesAt;
      ghost var before := Events(parse, seen);
      var events, didReset := Absorb(file);
      FramesAppend(before, events, 0, resumeAfter);
      WriteFrames(events);
      truncated := truncated || didReset;
    }
  }

  /** A cache entry agrees with the log exactly if nothing is inherited. */
  lemma AgreesIffNothingInherited(cache: Option<Summary>, inherited: seq<CellEvent>, events: seq<CellEvent>)
    requires Agrees(cache, inherited + events)
    ensures Agrees(cache, events) <==> inherited == []
  {
    assert [] + events == events;
    assert cache.Some? ==> cache.value.eventCount == |inherited| + |events|;
  }

  // --- whole histories ---

  /** Between ticks the file was missing, appended to, or cut below what had been read. */
  ghost predicate Visible(seen: string, files: seq<Option<string>>)
    decreases |files|
  {
    files == [] ||
    (&& (files[0].Some? ==> seen <= files[0].value || |files[0].value| < |seen|)
     && Visible(Observed(seen, files[0]), files[1..]))
  }

  /** Between ticks the file was missing or appended to. */
  ghost predicate Appended(seen: string, files: seq<Option<string>>)
    decreases |files|
  {
    files == []
    || ((files[0].Some? ==> seen <= files[0].value) && Appended(Observed(seen, files[0]), files[1..]))
  }

  /** The text a stream has taken the log to hold after ticks against these files. */
  function ObservedAll(seen: string, files: seq<Option<string>>): string
    decreases |files|
  {
    if files == [] then seen else ObservedAll(Observed(seen, files[0]), files[1..])
  }

  /** One of the ticks makes the stream replace the cache entry. */
  predicate Replaces(seen: string, files: seq<Option<string>>)
    decreases |files|
  {
    files != [] && (ReplacesAt(seen, files[0]) || Replaces(Observed(seen, files[0]), files[1..]))
  }

  /** With visible changes only, the observed text is the file as it is. */
  lemma {:induction false} AlwaysCurrent(seen: string, files: seq<Option<string>>)
    requires Visible(seen, files) && files != [] && files[|files| - 1].Some?
    ensures ObservedAll(seen, files) == files[|files| - 1].value
    decreases |files|
  {
    if |files| == 1 {
      ObservedIsFile(seen, files[0].value);
      assert files[1..] == [];
    } else {
      AlwaysCurrent(Observed(seen, files[0]), files[1..]);
    }
  }

  /** The tail loop over any number of ticks. */
  method Watch(t: TailStream, files: seq<Option<string>>)
    requires t.Valid()
    modifies t
    ensures t.Valid() && t.seen == ObservedAll(old(t.seen), files)
    ensures t.inherited == if Replaces(old(t.seen), files) then [] else old(t.inherited)
    ensures Appended(old(t.seen), files) ==> t.truncated == old(t.truncated)
  {
    ghost var replaced := false;
    for i := 0 to |files|
      invariant t.Valid() && ObservedAll(t.seen, files[i..]) == ObservedAll(old(t.seen), files)
      invariant Replaces(old(t.seen), files) <==> replaced || Replaces(t.seen, files[i..])
      invariant t.inherited == if replaced then [] else old(t.inherited)
      invariant Appended(old(t.seen), files) ==> Appended(t.seen, files[i..]) && t.truncated == old(t.truncated)
    {
      assert files[i..][0] == files[i] && files[i..][1..] == files[i + 1..];
      replaced := replaced || ReplacesAt(t.seen, files[i]);
      t.Tick(files[i]);
    }
  }

  /**
   After every tick the carry is the unfinished line of the file, and the cached summary is that of a full
   re-read, exactly if no older entry was inherited or one of the ticks replaced it.
   */
  method Follow(t: TailStream, files: seq<Option<string>>)
    requires t.Valid() && Visible(t.seen, files) && files != [] && files[|files| - 1].Some?
    modifies t
    ensures var file := files[|files| - 1].value;
            && t.Valid() && t.leftover == Unfinished(file)
            && (Agrees(t.cache, Events(t.parse, file)) <==> old(t.inherited) == [] || Replaces(old(t.seen), files))
            && (t.cache.Some? && (old(t.inherited) == [] || Replaces(old(t.seen), files))
                ==> Summarizes(t.cache.value, Events(t.parse, file)))
  {
    hide Events, SummaryOf, Summarizes, Replaces, ObservedAll, Visible, Unfinished, Frames;
    AlwaysCurrent(t.seen, files);
    Watch(t, files);
    AgreesIffNothingInherited(t.cache, t.inherited, Events(t.parse, t.seen));
    SummaryOfSummarizes(Events(t.parse, t.seen));
  }

  // --- what the conditions exclude ---

  const Ended := CellEvent(IncrementalTerminated, OtherPayload(""))

  /** Only the line "x" is an event, and it ends the cell. */
  function EndParser(line: string): Option<CellEvent> {
    if line == "x" then Some(Ended) else None
  }

  lemma OneLine(c: char)
    requires c != '\n' && !IsSpace(c)
    ensures NonBlank(CompleteLines([c, '\n'])) == [[c]] && CompleteLines([c]) == []
    ensures Events(EndParser, [c, '\n']) == if c == 'x' then [Ended] else []
  {
    OneLineIsComplete(c);
    assert NonBlank([[c]]) == [[c]] by {
      assert [c][0] == c && [[c]][1..] == [];
    }
    assert ParseAll(EndParser, [[c]]) == if [c] == "x" then [Ended] else [] by {
      assert [[c]][1..] == [] && ParseAll(EndParser, []) == [];
    }
    assert [c] == "x" <==> c == 'x' by {
      assert [c][0] == c;
    }
  }

  lemma OneLineIsComplete(c: char)
    requires c != '\n'
    ensures CompleteLines([c, '\n']) == [[c]] && CompleteLines([c]) == []
  {
    IndexOfIs('\n', [c, '\n'], 1);
    IndexOfIs('\n', [c], 1);
    IndexOfIs('\n', "", 0);
    assert [c, '\n'][..1] == [c] && [c, '\n'][2..] == "";
    assert CompleteLines("") == [];
  }

  lemma RewriteIsInvisible()
    ensures ObservedAll("", [Some("x\n"), Some("y\n")]) == "x\n"
    ensures Events(EndParser, "x\n") == [Ended] && Events(EndParser, "y\n") == []
  {
    hide Events, CompleteLines, NonBlank;
    OneLine('x');
    OneLine('y');
    assert ['x', '\n'] == "x\n" && ['y', '\n'] == "y\n";
    TwoObservations("x\n", "y\n");
  }

  /** A file as long as what was seen of it adds nothing. */
  lemma TwoObservations(first: string, second: string)
    requires |first| == |second|
    ensures ObservedAll("", [Some(first), Some(second)]) == first
  {
    var rest := [Some(second)];
    assert [Some(first), Some(second)][1..] == rest && rest[1..] == [];
    assert Observed("", Some(first)) == first && Observed(first, Some(second)) == first;
    assert ObservedAll(first, []) == first;
    assert ObservedAll(first, rest) == ObservedAll(Observed(first, rest[0]), rest[1..]);
  }

  /** A rewrite of the same length goes unnoticed, and the summary stays that of the old text. */
  method RewriteGoesUnnoticed() returns (t: TailStream)
    ensures fresh(t) && t.Valid() && t.parse == EndParser && !Agrees(t.cache, Events(EndParser, "y\n"))
  {
    hide Events, ObservedAll, Replaces, Frames;
    t := new TailStream(EndParser, -1, None, []);
    RewriteIsInvisible();
    Watch(t, [Some("x\n"), Some("y\n")]);
    assert Agrees(t.cache, [] + [Ended]);
  }

  lemma FirstReadFindsNoLine()
    ensures Visible("", [Some("x"), Some("x\n")]) && !Replaces("", [Some("x"), Some("x\n")])
  {
    OneLine('x');
    var files := [Some("x"), Some("x\n")];
    assert files[1..] == [Some("x\n")] && files[1..][1..] == [];
    assert Observed("", Some("x")) == "x" && NonBlank([]) == [];
    assert "x" <= "x\n";
    assert !ReplacesAt("", Some("x")) && !ReplacesAt("x", Some("x\n"));
  }

  /** A first read without a complete line leaves the entry of a recreated file in place, and later reads add to it. */
  method StaleEntryIsKept() returns (t: TailStream)
    ensures fresh(t) && t.Valid() && t.parse == EndParser && !Agrees(t.cache, Events(EndParser, "x\n"))
  {
    hide Events, Replaces, Visible, Frames, SummaryOf;
    t := new TailStream(EndParser, -1, Some(SummaryOf([Ended])), [Ended]);
    FirstReadFindsNoLine();
    Follow(t, [Some("x"), Some("x\n")]);
  }

  /** A connection that was cut after `delivered` of its frames had arrived, when the log read `log`. */
  datatype Connection = Connection(log: string, delivered: nat)

  /** What the browser keeps: the events it was handed and the last `id:` (-1 before the first). */
  datatype Client = Client(received: seq<CellEvent>, lastId: int)

  function Receive(client: Client, frames: seq<Frame>): Client {
    if frames == [] then client else
      var k := |frames| - 1;
      var before := Receive(client, frames[..k]);
      Client(before.received + [frames[k].event], frames[k].id)
  }

  /** A connection resumes after the last id; `Serve` shows that these are the frames a stream writes. */
  function Connect(parse: Parser, client: Client, c: Connection): Client {
    var frames := Frames(Events(parse, c.log), 0, client.lastId);
    Receive(client, frames[..if c.delivered < |frames| then c.delivered else |frames|])
  }

  /** One connection while the log is only appended to: the client receives what the ticks of its stream wrote. */
  method Serve(parse: Parser, client: Client, cache: Option<Summary>, ghost inherited: seq<CellEvent>,
               files: seq<Option<string>>, delivered: nat) returns (after: Client)
    requires Agrees(cache, inherited) && Appended("", files)
    ensures after == Connect(parse, client, Connection(ObservedAll("", files), delivered))
  {
    var t := new TailStream(parse, client.lastId, cache, inherited);
    Watch(t, files);
    after := Receive(client, t.written[..if delivered < |t.written| then delivered else |t.written|]);
  }

  function AfterConnections(parse: Parser, connections: seq<Connection>): Client {
    if connections == [] then Client([], -1) else
      var k := |connections| - 1;
      Connect(parse, AfterConnections(parse, connections[..k]), connections[k])
  }

  lemma {:induction false} FramesResume(events: seq<CellEvent>, resumeAfter: int)
    requires -1 <= resumeAfter < |events|
    ensures |Frames(events, 0, resumeAfter)| == |events| - resumeAfter - 1
    ensures forall i :: 0 <= i < |events| - resumeAfter - 1 ==>
              Frames(events, 0, resumeAfter)[i] == Frame(resumeAfter + 1 + i, events[resumeAfter + 1 + i])
  {
    if events != [] {
      var k := |events| - 1;
      if resumeAfter < k {
        FramesResume(events[..k], resumeAfter);
      } else {
        FramesBelow(events, resumeAfter);
      }
    }
  }

  lemma {:induction false} FramesBelow(events: seq<CellEvent>, resumeAfter: int)
    requires |events| - 1 <= resumeAfter
    ensures Frames(events, 0, resumeAfter) == []
  {
    if events != [] {
      FramesBelow(events[..|events| - 1], resumeAfter);
    }
  }

  /** Consecutive frames extend a prefix of the events by exactly the next ones. */
  lemma {:induction false} ReceiveExtends(client: Client, frames: seq<Frame>, events: seq<CellEvent>)
    requires client.lastId == |client.received| - 1 && client.received <= events
    requires |client.received| + |frames| <= |events|
    requires forall i :: 0 <= i < |frames| ==>
               frames[i] == Frame(|client.received| + i, events[|client.received| + i])
    ensures Receive(client, frames).received == events[..|client.received| + |frames|]
    ensures Receive(client, frames).lastId == |client.received| + |frames| - 1
  {
    if frames != [] {
      ReceiveExtends(client, frames[..|frames| - 1], events);
    }
  }

  lemma EventsGrow(parse: Parser, log: string, longer: string)
    requires log <= longer
    ensures Events(parse, log) <= Events(parse, longer)
  {
    assert log + longer[|log|..] == longer;
    EventsAppend(parse, log, longer[|log|..]);
  }

  /** The client holds the first of these events and knows how many. */
  ghost predicate InStep(client: Client, events: seq<CellEvent>) {
    client.received <= events && client.lastId == |client.received| - 1
  }

  lemma ConnectKeepsInStep(parse: Parser, client: Client, c: Connection)
    requires InStep(client, Events(parse, c.log))
    ensures InStep(Connect(parse, client, c), Events(parse, c.log))
    ensures c.delivered >= |Events(parse, c.log)| ==> Connect(parse, client, c).received == Events(parse, c.log)
  {
    var events := Events(parse, c.log);
    var frames := Frames(events, 0, client.lastId);
    FramesResume(events, client.lastId);
    ReceiveExtends(client, frames[..if c.delivered < |frames| then c.delivered else |frames|], events);
  }

  /**
   Over any number of disconnects of an append-only log, the client holds a prefix of the parsed events,
   without gap or duplicate, and all of them once a connection is read to its end.
   */
  lemma {:induction false} ExactlyOnceAcrossReconnects(parse: Parser, connections: seq<Connection>)
    requires connections != []
    requires forall i :: 0 < i < |connections| ==> connections[i - 1].log <= connections[i].log
    ensures var client := AfterConnections(parse, connections);
            var last := connections[|connections| - 1];
            && client.received <= Events(parse, last.log)
            && client.lastId == |client.received| - 1
            && (last.delivered >= |Events(parse, last.log)| ==> client.received == Events(parse, last.log))
  {
    var k := |connections| - 1;
    if k > 0 {
      ExactlyOnceAcrossReconnects(parse, connections[..k]);
      EventsGrow(parse, connections[k - 1].log, connections[k].log);
    }
    var before := AfterConnections(parse, connections[..k]);
    assert InStep(before, Events(parse, connections[k].log));
    ConnectKeepsInStep(parse, before, connections[k]);
  }
}
