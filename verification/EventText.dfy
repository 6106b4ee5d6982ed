/** Cutting a growing log into complete lines: the whole-text reading and why it can be done in pieces. */
module EventText {
  import opened Optional
  import opened Strings

  datatype Payload = ObjectPayload(json: string) | OtherPayload(json: string)
  /** The event kinds the dashboard tells apart; any other `kind` string is `OtherKind`. */
  datatype Kind =
    | IncrementalStarted | IncrementalTerminated | CellCancelledKind | RunCancelled | CellFailedKind
    | ConsensusRejected | ProposalRejected | ProposalApplied | ProposalPicked | OtherKind(name: string)
  datatype CellEvent = CellEvent(kind: Kind, payload: Payload)

  /** parseCellEventLine: `None` for malformed JSON or a missing kind. Any such function will do. */
  type Parser = string -> Option<CellEvent>

  /** The lines of `text` that a newline ends, and the text after the last newline. */
  function CompleteLines(text: string): seq<string> {
    var k := IndexOf('\n', text);
    if k == |text| then [] else [text[..k]] + CompleteLines(text[k + 1..])
  }

  function Unfinished(text: string): string {
    var k := IndexOf('\n', text);
    if k == |text| then text else Unfinished(text[k + 1..])
  }

  lemma FirstLine(text: string, k: nat)
    requires k < |text| && text[k] == '\n' && '\n' !in text[..k]
    ensures CompleteLines(text) == [text[..k]] + CompleteLines(text[k + 1..])
    ensures Unfinished(text) == Unfinished(text[k + 1..])
  {
    IndexOfIs('\n', text, k);
  }

  /** Reading on from the unfinished line gives the same lines and the same remainder as reading all again. */
  lemma {:induction false} ReadInPieces(text: string, more: string)
    ensures CompleteLines(text + more) == CompleteLines(text) + CompleteLines(Unfinished(text) + more)
    ensures Unfinished(text + more) == Unfinished(Unfinished(text) + more)
    decreases |text|
  {
    hide CompleteLines, Unfinished;
    var k := IndexOf('\n', text);
    if k < |text| {
      var rest := text[k + 1..];
      FirstLine(text, k);
      assert (text + more)[..k] == text[..k] && (text + more)[k + 1..] == rest + more;
      FirstLine(text + more, k);
      ReadInPieces(rest, more);
    } else {
      NoCompleteLine(text);
    }
  }

  /** The lines written out again, each with its newline. */
  ghost function Joined(lines: seq<string>): string {
    if lines == [] then "" else lines[0] + "\n" + Joined(lines[1..])
  }

  /** The complete lines and the rest make up the text, and none of them holds a newline. */
  lemma {:induction false} LinesMakeText(text: string)
    ensures Joined(CompleteLines(text)) + Unfinished(text) == text
    ensures '\n' !in Unfinished(text) && forall line :: line in CompleteLines(text) ==> '\n' !in line
    decreases |text|
  {
    hide CompleteLines, Unfinished, Joined;
    var k := IndexOf('\n', text);
    if k < |text| {
      var line, rest := text[..k], text[k + 1..];
      FirstLine(text, k);
      LinesMakeText(rest);
      JoinedFirst(line, CompleteLines(rest));
      assert text == line + "\n" + rest;
      assert line + "\n" + Joined(CompleteLines(rest)) + Unfinished(rest) == line + "\n" + rest;
    } else {
      NoCompleteLine(text);
      JoinedNone(text);
    }
  }

  lemma JoinedFirst(line: string, lines: seq<string>)
    ensures Joined([line] + lines) == line + "\n" + Joined(lines)
  {
    assert ([line] + lines)[1..] == lines;
  }

  lemma JoinedNone(text: string)
    ensures Joined([]) + text == text
  {
  }

  // --- the string operations the source uses ---

  method LastIndexOfNewline(text: string) returns (last: int)
    ensures -1 <= last < |text| && '\n' !in text[last + 1..] && (last >= 0 ==> text[last] == '\n')
  {
    last := |text| - 1;
    while last >= 0 && text[last] != '\n'
      invariant -1 <= last < |text| && '\n' !in text[last + 1..]
    {
      assert text[last..] == [text[last]] + text[last + 1..];
      last := last - 1;
    }
  }

  /** Splitting what precedes the last newline yields exactly the complete lines. */
  lemma {:induction false} SplitAtLastNewline(text: string, last: nat)
    requires last < |text| && text[last] == '\n' && '\n' !in text[last + 1..]
    ensures Split('\n', text[..last]) == CompleteLines(text)
    ensures text[last + 1..] == Unfinished(text)
    decreases |text|
  {
    var k := IndexOf('\n', text);
    assert k <= last;
    var rest := text[k + 1..];
    if k == last {
      IndexOfIs('\n', text[..last], last);
      IndexOfIs('\n', rest, |rest|);
      assert text[..last][..last] == text[..last];
    } else {
      assert text[..last][..k] == text[..k];
      IndexOfIs('\n', text[..last], k);
      assert text[..last][k + 1..] == rest[..last - k - 1];
      assert rest[last - k..] == text[last + 1..];
      SplitAtLastNewline(rest, last - k - 1);
    }
  }

  lemma NoCompleteLine(text: string)
    requires '\n' !in text
    ensures CompleteLines(text) == [] && Unfinished(text) == text
  {
    IndexOfIs('\n', text, |text|);
  }

  /** The characters String.prototype.trim removes. */
  predicate IsSpace(c: char) {
    || '\t' <= c <= '\r' || c == ' ' || c == '\U{00A0}' || c == '\U{1680}' || '\U{2000}' <= c <= '\U{200A}'
    || c == '\U{2028}' || c == '\U{2029}' || c == '\U{202F}' || c == '\U{205F}' || c == '\U{3000}' || c == '\U{FEFF}'
  }

  predicate IsBlank(line: string) {
    forall i :: 0 <= i < |line| ==> IsSpace(line[i])
  }

  function NonBlank(lines: seq<string>): seq<string> {
    if lines == [] then [] else (if IsBlank(lines[0]) then [] else [lines[0]]) + NonBlank(lines[1..])
  }

  /** The events of the lines that parse, in order. */
  function ParseAll(parse: Parser, lines: seq<string>): seq<CellEvent> {
    if lines == [] then [] else
      (match parse(lines[0]) case None => [] case Some(e) => [e]) + ParseAll(parse, lines[1..])
  }

  /** One line is kept exactly if it holds a character other than white space; together with appending this is all. */
  lemma NonBlankOne(line: string)
    ensures NonBlank([line]) == if exists i :: 0 <= i < |line| && !IsSpace(line[i]) then [line] else []
    ensures forall c: char :: c < '\U{0080}' ==> (IsSpace(c) <==> c == ' ' || '\t' <= c <= '\r')
  {
    assert [line][1..] == [] && NonBlank([]) == [];
  }

  lemma ParseOne(parse: Parser, line: string)
    ensures ParseAll(parse, [line]) == match parse(line) case None => [] case Some(e) => [e]
  {
    assert [line][1..] == [] && ParseAll(parse, []) == [];
  }

  lemma {:induction false} NonBlankAppend(a: seq<string>, b: seq<string>)
    ensures NonBlank(a + b) == NonBlank(a) + NonBlank(b)
  {
    hide IsBlank;
    if a == [] {
      assert a + b == b;
    } else {
      var rest, more := a[1..], a + b;
      assert more[0] == a[0] && more[1..] == rest + b;
      NonBlankAppend(rest, b);
      var first := if IsBlank(a[0]) then [] else [a[0]];
      assert NonBlank(more) == first + NonBlank(rest + b) && NonBlank(a) == first + NonBlank(rest);
    }
  }

  lemma {:induction false} ParseAllAppend(parse: Parser, a: seq<string>, b: seq<string>)
    ensures ParseAll(parse, a + b) == ParseAll(parse, a) + ParseAll(parse, b)
  {
    if a == [] {
      assert a + b == b;
    } else {
      assert (a + b)[1..] == a[1..] + b;
      ParseAllAppend(parse, a[1..], b);
    }
  }

  /** What a full re-read of the log finds. */
  function Events(parse: Parser, log: string): seq<CellEvent> {
    ParseAll(parse, NonBlank(CompleteLines(log)))
  }

  lemma EventsAppend(parse: Parser, log: string, more: string)
    ensures Events(parse, log + more)
            == Events(parse, log) + ParseAll(parse, NonBlank(CompleteLines(Unfinished(log) + more)))
    ensures Unfinished(log + more) == Unfinished(Unfinished(log) + more)
  {
    ReadInPieces(log, more);
    NonBlankAppend(CompleteLines(log), CompleteLines(Unfinished(log) + more));
    ParseAllAppend(parse, NonBlank(CompleteLines(log)), NonBlank(CompleteLines(Unfinished(log) + more)));
  }
}
