/** Writing and reading the event stream (internal/api/chat.go, internal/provider/openai.go;
    sections 9.2.5 and 9.2.6 of the HTML Living Standard). A chunk is its JSON text. */
module Sse {
  import opened Text

  const LF := '\n'

  /** The scanner's buffer: a line that does not fit with its line feed ends the scan. */
  const MAX_TOKEN := 1_048_576

  // ---------------------------------------------------------------- writing

  /** What json.Marshal gives for a chunk: an object on one line. */
  ghost predicate ChunkText(p: string) {
    |p| >= 2 && p[0] == '{' && p[|p| - 1] == '}' && LF !in p
  }

  function DataLine(p: string): string { "data: " + p }

  function Event(p: string): string { DataLine(p) + [LF, LF] }

  const TERMINATOR := "[DONE]"

  function Sent(ps: seq<string>): string {
    if ps == [] then "" else Event(ps[0]) + Sent(ps[1..])
  }

  function Stream(ps: seq<string>): string { Sent(ps) + Event(TERMINATOR) }

  class StreamWriter {
    var out: string

    constructor ()
      ensures out == ""
    {
      out := "";
    }

    method Send(p: string)
      modifies this
      ensures out == old(out) + Event(p)
    {
      out := out + ("data: " + p + [LF, LF]);
    }

    method Done()
      modifies this
      ensures out == old(out) + Event(TERMINATOR)
    {
      out := out + ("data: " + TERMINATOR + [LF, LF]);
    }
  }

  /** Sends a whole completion, as the streaming handler does. */
  method SendAll(w: StreamWriter, ps: seq<string>)
    requires w.out == ""
    modifies w
    ensures w.out == Stream(ps)
  {
    assert Sent(ps[|ps|..]) == "";
    for i := 0 to |ps|
      invariant w.out + Sent(ps[i..]) == Sent(ps)
    {
      assert ps[i..][1..] == ps[i + 1..];
      assert w.out + (Event(ps[i]) + Sent(ps[i + 1..])) == w.out + Event(ps[i]) + Sent(ps[i + 1..]);
      w.Send(ps[i]);
    }
    w.Done();
  }

  // ---------------------------------------------------------------- reading

  datatype Ending = Success | BadChunk | Aborted | LineTooLong | ReadFailed | Truncated

  /** The chunks passed to the callback, and how the stream ended. */
  datatype Parsed = Parsed(chunks: seq<string>, ending: Ending)

  /** The reader's environment: which payloads decode, what the n-th callback answers, and whether
      the body ends in a read error. */
  datatype Env = Env(decodes: string -> bool, accepts: nat -> bool, readFails: bool)

  /** How far the first line of a text reaches. */
  function LineLen(s: string): (n: nat)
    ensures n <= |s|
  {
    if s == "" || s[0] == LF then 0 else 1 + LineLen(s[1..])
  }

  lemma {:induction false} LineLenEnds(s: string)
    ensures var n := LineLen(s); LF !in s[..n] && (n < |s| ==> s[n] == LF)
  {
    if s != "" && s[0] != LF {
      LineLenEnds(s[1..]);
      assert s[..LineLen(s)] == [s[0]] + s[1..][..LineLen(s) - 1];
    }
  }

  function FirstLine(s: string): string { s[..LineLen(s)] }

  function AfterLine(s: string): (r: string)
    ensures s != "" ==> |r| < |s|
  {
    if LineLen(s) < |s| then s[LineLen(s) + 1..] else ""
  }

  /** What a line carries. TrimSpace also takes off a carriage return the scanner left. */
  datatype Content = Nothing | Payload(text: string)

  function ContentOf(line: string): Content {
    var t := Trim(line);
    if t == "" || t[0] == ':' then Nothing
    else if "data:" <= t then Payload(Trim(t[5..]))
    else Nothing
  }

  /** What happens to one line: it is skipped, delivers a chunk, or ends the stream. */
  datatype Reaction = Skip | Deliver(chunk: string) | End(before: seq<string>, ending: Ending)

  function React(env: Env, line: string, n: nat): Reaction {
    if ByteLen(line) >= MAX_TOKEN then End([], LineTooLong)
    else
      match ContentOf(line)
      case Nothing => Skip
      case Payload(p) =>
        if p == TERMINATOR then End([], Success)
        else if !env.decodes(p) then End([], BadChunk)
        else if !env.accepts(n) then End([p], Aborted)
        else Deliver(p)
  }

  function Cons(p: string, r: Parsed): Parsed { r.(chunks := [p] + r.chunks) }

  function AtEnd(env: Env): Ending { if env.readFails then ReadFailed else Truncated }

  /** Reading `text` after `n` chunks have been delivered. */
  function Parse(env: Env, text: string, n: nat): Parsed
    decreases |text|
  {
    if text == "" then Parsed([], AtEnd(env))
    else
      match React(env, FirstLine(text), n)
      case Skip => Parse(env, AfterLine(text), n)
      case Deliver(p) => Cons(p, Parse(env, AfterLine(text), n + 1))
      case End(before, ending) => Parsed(before, ending)
  }

  /** One step of reading. */
  lemma ParseStep(env: Env, text: string, n: nat)
    requires text != ""
    ensures Parse(env, text, n)
         == match React(env, FirstLine(text), n)
            case Skip => Parse(env, AfterLine(text), n)
            case Deliver(p) => Cons(p, Parse(env, AfterLine(text), n + 1))
            case End(before, ending) => Parsed(before, ending)
  {}

  lemma JoinedCons(ps: seq<string>, p: string, r: Parsed)
    ensures Joined(ps, Cons(p, r)) == Joined(ps + [p], r)
  {}

  lemma JoinedEnd(ps: seq<string>, ending: Ending)
    ensures Joined(ps, Parsed([], ending)) == Parsed(ps, ending)
  {}

  lemma NothingLeft(env: Env, n: nat)
    ensures Parse(env, "", n) == Parsed([], AtEnd(env)) && AtEnd(env) == if env.readFails then ReadFailed else Truncated
  {}

  method ParseSSE(env: Env, body: string) returns (chunks: seq<string>, ending: Ending)
    ensures Parsed(chunks, ending) == Parse(env, body, 0)
  {
    hide Parse, ByteLen, Trim, LineLen, Joined, Cons, AtEnd;
    chunks := [];
    var rest := body;
    JoinedNothing(Parse(env, body, 0));
    while rest != ""
      invariant Parse(env, body, 0) == Joined(chunks, Parse(env, rest, |chunks|))
      decreases |rest|
    {
      var raw := FirstLine(rest);
      ParseStep(env, rest, |chunks|);
      rest := AfterLine(rest);
      if ByteLen(raw) >= MAX_TOKEN {
        JoinedEnd(chunks, LineTooLong);
        return chunks, LineTooLong;
      }
      var line := Trim(raw);
      if line == "" || line[0] == ':' {
        continue;
      }
      if !("data:" <= line) {
        continue;
      }
      var payload := Trim(line[5..]);
      if payload == "[DONE]" {
        JoinedEnd(chunks, Success);
        return chunks, Success;
      }
      if !env.decodes(payload) {
        JoinedEnd(chunks, BadChunk);
        return chunks, BadChunk;
      }
      var n := |chunks|;
      JoinedCons(chunks, payload, Parse(env, rest, n + 1));
      JoinedLast(chunks, payload);
      chunks := chunks + [payload];
      if !env.accepts(n) {
        return chunks, Aborted;
      }
    }
    NothingLeft(env, |chunks|);
    JoinedEnd(chunks, AtEnd(env));
    return chunks, AtEnd(env);
  }

  lemma JoinedNothing(r: Parsed)
    ensures Joined([], r) == r
  {}

  lemma JoinedLast(ps: seq<string>, p: string)
    ensures Joined(ps, Parsed([p], Aborted)) == Parsed(ps + [p], Aborted)
  {}

  function Joined(chunks: seq<string>, r: Parsed): Parsed { r.(chunks := chunks + r.chunks) }

  // ---------------------------------------------------------------- lines

  lemma {:induction false} LineThenRest(line: string, rest: string)
    requires LF !in line
    ensures FirstLine(line + ([LF] + rest)) == line && AfterLine(line + ([LF] + rest)) == rest
  {
    LineLenOf(line, [LF] + rest);
    var s := line + ([LF] + rest);
    assert s[..|line|] == line && s[|line| + 1..] == rest;
  }

  lemma {:induction false} LineLenOf(line: string, rest: string)
    requires LF !in line && rest != "" && rest[0] == LF
    ensures LineLen(line + rest) == |line|
  {
    if line == "" {
      assert line + rest == rest;
    } else {
      assert (line + rest)[1..] == line[1..] + rest;
      LineLenOf(line[1..], rest);
    }
  }

  lemma {:induction false} Step(env: Env, line: string, rest: string, n: nat)
    requires LF !in line
    ensures Parse(env, line + ([LF] + rest), n)
         == match React(env, line, n)
            case Skip => Parse(env, rest, n)
            case Deliver(p) => Cons(p, Parse(env, rest, n + 1))
            case End(before, ending) => Parsed(before, ending)
  {
    LineThenRest(line, rest);
  }

  /** A line that carries nothing and fits: blank, a comment, or another field. */
  ghost predicate Noise(line: string) {
    LF !in line && ByteLen(line) < MAX_TOKEN && ContentOf(line).Nothing?
  }

  lemma {:induction false} TrimRightFirst(s: string)
    requires s != "" && !IsSpace(s[0])
    ensures TrimRight(s) != "" && TrimRight(s)[0] == s[0]
  {
    if IsSpace(s[|s| - 1]) { TrimRightFirst(s[..|s| - 1]); }
  }

  lemma {:induction false} TrimLeftOfBlank(s: string)
    requires Blank(s)
    ensures TrimLeft(s) == ""
  {
    if s != "" { TrimLeftOfBlank(s[1..]); }
  }

  /** Blank lines, comments, and `event:` and `id:` fields carry nothing. */
  lemma NoiseKinds(line: string)
    requires Blank(line) || ":" <= line || "event:" <= line || "id:" <= line
    ensures ContentOf(line) == Nothing
  {
    if Blank(line) {
      TrimLeftOfBlank(line);
    } else {
      assert line[0] == ':' || line[0] == 'e' || line[0] == 'i';
      TrimRightFirst(line);
    }
  }

  ghost predicate WholeLines(s: string) { s == "" || s[|s| - 1] == LF }

  lemma WholeLinesSplit(a: string)
    requires WholeLines(a) && a != ""
    ensures var line, rest := FirstLine(a), AfterLine(a);
            a == line + ([LF] + rest) && LF !in line && WholeLines(rest)
  {
    hide LineLen;
    var n := LineLen(a);
    LineLenEnds(a);
    assert a[|a| - 1] in a && a[..|a|] == a;
    assert a == a[..n] + ([a[n]] + a[n + 1..]);
  }

  /** Inserting such a line between any two lines of any stream changes nothing. */
  lemma {:induction false} NoiseIsInvisible(env: Env, a: string, noise: string, b: string, n: nat)
    requires WholeLines(a) && Noise(noise)
    ensures Parse(env, a + (noise + ([LF] + b)), n) == Parse(env, a + b, n)
    decreases |a|
  {
    if a == "" {
      assert a + (noise + ([LF] + b)) == noise + ([LF] + b) && a + b == b;
      Step(env, noise, b, n);
    } else {
      WholeLinesSplit(a);
      var line, rest := FirstLine(a), AfterLine(a);
      assert a + (noise + ([LF] + b)) == line + ([LF] + (rest + (noise + ([LF] + b))));
      assert a + b == line + ([LF] + (rest + b));
      hide Parse, React;
      Step(env, line, rest + (noise + ([LF] + b)), n);
      Step(env, line, rest + b, n);
      NoiseIsInvisible(env, rest, noise, b, n);
      NoiseIsInvisible(env, rest, noise, b, n + 1);
    }
  }

  /** The lines of a text. */
  function Lines(text: string): seq<string>
    decreases |text|
  {
    if text == "" then [] else [FirstLine(text)] + Lines(AfterLine(text))
  }

  lemma LinesStep(line: string, rest: string)
    requires LF !in line
    ensures Lines(line + ([LF] + rest)) == [line] + Lines(rest)
  {
    LineThenRest(line, rest);
  }

  lemma EventLines(p: string, rest: string)
    requires LF !in p
    ensures Lines(Event(p) + rest) == ["data: " + p, ""] + Lines(rest)
  {
    assert Event(p) + rest == ("data: " + p) + ([LF] + ("" + ([LF] + rest)));
    hide *;
    LinesStep("data: " + p, "" + ([LF] + rest));
    LinesStep("", rest);
    assert ["data: " + p] + ([""] + Lines(rest)) == ["data: " + p, ""] + Lines(rest);
  }

  /** Each payload on a data line, with a blank line after it. */
  function EventStream(ps: seq<string>): seq<string> {
    if ps == [] then [] else ["data: " + ps[0], ""] + EventStream(ps[1..])
  }

  lemma {:induction false} SentLines(ps: seq<string>, tail: string)
    requires forall k :: 0 <= k < |ps| ==> LF !in ps[k]
    ensures Lines(Sent(ps) + tail) == EventStream(ps) + Lines(tail)
  {
    hide Lines, Event;
    if ps == [] {
      assert Sent(ps) + tail == tail;
    } else {
      assert Sent(ps) + tail == Event(ps[0]) + (Sent(ps[1..]) + tail);
      SentLines(ps[1..], tail);
      EventLines(ps[0], Sent(ps[1..]) + tail);
      var first := ["data: " + ps[0], ""];
      assert first + (EventStream(ps[1..]) + Lines(tail)) == EventStream(ps) + Lines(tail);
    }
  }

  lemma StreamIs(ps: seq<string>)
    ensures Stream(ps) == Sent(ps) + Event(TERMINATOR)
  {}

  lemma LastEventLines()
    ensures Lines(Event(TERMINATOR)) == ["data: [DONE]", ""]
  {
    EventLines(TERMINATOR, "");
    hide Event;
    assert Event(TERMINATOR) + "" == Event(TERMINATOR);
    assert Lines("") == [];
    assert "data: " + TERMINATOR == "data: [DONE]";
    assert ["data: " + TERMINATOR, ""] + [] == ["data: [DONE]", ""];
  }

  /** What is written is an event stream: a data line and a blank one for each chunk and for the
      terminator. */
  lemma {:induction false} StreamLines(ps: seq<string>)
    requires forall k :: 0 <= k < |ps| ==> LF !in ps[k]
    ensures Lines(Stream(ps)) == EventStream(ps) + ["data: [DONE]", ""]
  {
    hide *;
    StreamIs(ps);
    SentLines(ps, Event(TERMINATOR));
    LastEventLines();
  }

  ghost predicate HasTerminator(text: string) {
    exists line <- Lines(text) :: ContentOf(line) == Payload("[DONE]")
  }

  lemma TerminatorLine(text: string)
    requires text != "" && (ContentOf(FirstLine(text)) == Payload("[DONE]") || HasTerminator(AfterLine(text)))
    ensures HasTerminator(text)
  {
    hide ContentOf, LineLen;
    var line := FirstLine(text);
    assert Lines(text) == [line] + Lines(AfterLine(text));
    assert line in Lines(text);
  }

  lemma OnlyTerminatorSucceeds(env: Env, line: string, n: nat)
    ensures React(env, line, n).End? && React(env, line, n).ending == Success ==> ContentOf(line) == Payload("[DONE]")
  {
    hide ContentOf, ByteLen;
  }

  /** Success needs a terminator line: no other stream, however it is cut, is taken as complete. */
  lemma {:induction false} SuccessNeedsTerminator(env: Env, text: string, n: nat)
    ensures Parse(env, text, n).ending == Success ==> HasTerminator(text)
    decreases |text|
  {
    hide *;
    if text == "" {
      NothingLeft(env, n);
    } else {
      ParseStep(env, text, n);
      OnlyTerminatorSucceeds(env, FirstLine(text), n);
      if Parse(env, text, n).ending == Success {
        match React(env, FirstLine(text), n) {
          case Skip => SuccessNeedsTerminator(env, AfterLine(text), n);
          case Deliver(p) =>
            ConsEnds(p, Parse(env, AfterLine(text), n + 1));
            SuccessNeedsTerminator(env, AfterLine(text), n + 1);
          case End(_, _) =>
        }
        TerminatorLine(text);
      }
    }
  }

  lemma ConsEnds(p: string, r: Parsed)
    ensures Cons(p, r).ending == r.ending
  {}

  // ---------------------------------------------------------------- what was sent is what is read

  lemma TrimKeeps(s: string)
    requires s != "" && !IsSpace(s[0]) && !IsSpace(s[|s| - 1])
    ensures Trim(s) == s
  {}

  lemma DataContent(p: string)
    requires p != "" && !IsSpace(p[0]) && !IsSpace(p[|p| - 1])
    ensures ContentOf(DataLine(p)) == Payload(p)
  {
    var t := DataLine(p);
    TrimKeeps(t);
    TrimKeeps(p);
    assert t[5..] == [' '] + p;
    assert ([' '] + p)[1..] == p;
    assert t[..5] == "data:";
  }

  /** A line, white space around it aside, carries a chunk exactly if it begins with "data:", and then
      what follows without the white space around that. */
  lemma DataLineForms(line: string, c: string, p: string)
    requires CoreOf(line, c)
    ensures ContentOf(line).Payload? <==> "data:" <= c
    ensures "data:" <= c && CoreOf(c[5..], p) ==> ContentOf(line) == Payload(p)
  {
    hide CoreOf, Trim;
    TrimIsCore(line, c);
    if "data:" <= c { TrimIsCore(c[5..], p); }
  }

  lemma DataLineBytes(p: string)
    ensures ByteLen(DataLine(p)) == 6 + ByteLen(p)
  {
    ByteLenAppend("data: ", p);
    assert ByteLen("data: ") == 6 by { SixBytes(); }
  }

  lemma SixBytes()
    ensures ByteLen("data: ") == 6
  {}

  /** Everything sent decodes, and the callback takes it. */
  ghost predicate Willing(env: Env, ps: seq<string>) {
    && (forall k :: 0 <= k < |ps| ==> ChunkText(ps[k]) && env.decodes(ps[k]))
    && (forall k: nat :: env.accepts(k))
  }

  ghost predicate Fits(p: string) { 6 + ByteLen(p) < 1_048_576 }

  ghost predicate AllFit(ps: seq<string>) { forall k :: 0 <= k < |ps| ==> Fits(ps[k]) }

  lemma OneEvent(env: Env, p: string, rest: string, n: nat)
    requires ChunkText(p)
    ensures Parse(env, Event(p) + rest, n)
         == if !Fits(p) then Parsed([], LineTooLong)
            else if !env.decodes(p) then Parsed([], BadChunk)
            else if !env.accepts(n) then Parsed([p], Aborted)
            else Cons(p, Parse(env, rest, n + 1))
  {
    assert Event(p) + rest == DataLine(p) + ([LF] + ("" + ([LF] + rest)));
    DataContent(p);
    DataLineBytes(p);
    assert p != TERMINATOR;
    hide Parse, ContentOf;
    Step(env, DataLine(p), "" + ([LF] + rest), n);
    BlankIsNothing();
    Step(env, "", rest, n + 1);
  }

  lemma BlankIsNothing()
    ensures ContentOf("") == Nothing && ByteLen("") == 0
  {}

  lemma TerminatorEnds(env: Env, n: nat)
    ensures Parse(env, Event(TERMINATOR), n) == Parsed([], Success)
  {
    hide Parse, ContentOf, React;
    assert Event(TERMINATOR) == DataLine(TERMINATOR) + ([LF] + [LF]);
    Step(env, DataLine(TERMINATOR), [LF], n);
    TerminatorReaction(env, n);
  }

  lemma TerminatorReaction(env: Env, n: nat)
    ensures React(env, DataLine(TERMINATOR), n) == End([], Success)
  {
    DataContent(TERMINATOR);
    hide ContentOf, ByteLen;
    DataLineBytes(TERMINATOR);
    BytesPerChar(TERMINATOR);
  }

  lemma {:induction false} BytesPerChar(s: string)
    ensures ByteLen(s) <= 4 * |s|
  {
    if s != "" { BytesPerChar(s[1..]); }
  }

  lemma SentStep(ps: seq<string>, tail: string)
    requires ps != []
    ensures Sent(ps) + tail == Event(ps[0]) + (Sent(ps[1..]) + tail)
  {}

  /** The chunks decode, and the callback takes them from its `n`-th call on. */
  ghost predicate Taking(env: Env, ps: seq<string>, n: nat) {
    forall k :: 0 <= k < |ps| ==> ChunkText(ps[k]) && env.decodes(ps[k]) && env.accepts(n + k)
  }

  lemma WillingTakes(env: Env, ps: seq<string>)
    requires Willing(env, ps)
    ensures Taking(env, ps, 0)
  {}

  lemma TakingStep(env: Env, ps: seq<string>, n: nat)
    requires Taking(env, ps, n) && ps != []
    ensures ChunkText(ps[0]) && env.decodes(ps[0]) && env.accepts(n) && Taking(env, ps[1..], n + 1)
    ensures AllFit(ps) <==> Fits(ps[0]) && AllFit(ps[1..])
  {
    assert ChunkText(ps[0]) && env.accepts(n + 0);
    assert n + 0 == n;
    assert forall k :: 0 <= k < |ps| - 1 ==> ps[1..][k] == ps[k + 1] && n + 1 + k == n + (k + 1);
  }

  lemma WillingStep(env: Env, ps: seq<string>)
    requires Willing(env, ps) && ps != []
    ensures ChunkText(ps[0]) && env.decodes(ps[0]) && (forall k: nat :: env.accepts(k)) && Willing(env, ps[1..])
    ensures AllFit(ps) <==> Fits(ps[0]) && AllFit(ps[1..])
  {}

  lemma ConsJoined(p: string, ps: seq<string>, r: Parsed)
    ensures Cons(p, Joined(ps, r)) == Joined([p] + ps, r)
  {}

  lemma NoneSent(env: Env, tail: string, n: nat)
    ensures Parse(env, Sent([]) + tail, n) == Joined([], Parse(env, tail, n + 0))
  {
    hide Parse;
    assert Sent([]) + tail == tail;
    assert [] + Parse(env, tail, n).chunks == Parse(env, tail, n).chunks;
  }

  lemma {:induction false} SentThen(env: Env, ps: seq<string>, tail: string, n: nat)
    requires Taking(env, ps, n) && AllFit(ps)
    ensures Parse(env, Sent(ps) + tail, n) == Joined(ps, Parse(env, tail, n + |ps|))
  {
    hide *;
    if ps == [] {
      NoneSent(env, tail, n);
    } else {
      SentStep(ps, tail);
      TakingStep(env, ps, n);
      OneEvent(env, ps[0], Sent(ps[1..]) + tail, n);
      SentThen(env, ps[1..], tail, n + 1);
      ConsJoined(ps[0], ps[1..], Parse(env, tail, n + |ps|));
      assert [ps[0]] + ps[1..] == ps;
    }
  }

  lemma {:induction false} TooLongFails(env: Env, ps: seq<string>, tail: string, n: nat)
    requires Willing(env, ps) && !AllFit(ps)
    ensures Parse(env, Sent(ps) + tail, n).ending == LineTooLong
  {
    assert ps != [];
    hide *;
    SentStep(ps, tail);
    WillingStep(env, ps);
    OneEvent(env, ps[0], Sent(ps[1..]) + tail, n);
    if Fits(ps[0]) { TooLongFails(env, ps[1..], tail, n + 1); }
  }

  /** Reading what was written gives back the same chunks and success exactly when every chunk's
      line fits the reader's buffer; the writer has no such limit. */
  lemma {:induction false} RoundTrip(env: Env, ps: seq<string>)
    requires Willing(env, ps)
    ensures Parse(env, Stream(ps), 0) == Parsed(ps, Success) <==> AllFit(ps)
  {
    hide *;
    StreamIs(ps);
    if AllFit(ps) {
      WillingTakes(env, ps);
      SentThen(env, ps, Event(TERMINATOR), 0);
      TerminatorEnds(env, |ps|);
      JoinedEnd(ps, Success);
    } else {
      TooLongFails(env, ps, Event(TERMINATOR), 0);
    }
  }

  /** A stream cut at a line boundary before the terminator: after the blank line of a chunk, or
      after its data line. The chunks seen are delivered, and it is never a success. */
  lemma {:induction false} CutStream(env: Env, ps: seq<string>, afterDataLine: bool)
    requires Willing(env, ps) && AllFit(ps)
    ensures var cut := if afterDataLine && ps != [] then Sent(ps)[..|Sent(ps)| - 1] else Sent(ps);
            Parse(env, cut, 0) == Parsed(ps, if env.readFails then ReadFailed else Truncated)
  {
    hide *;
    WillingTakes(env, ps);
    SentThen(env, ps, "", 0);
    NothingLeft(env, |ps|);
    JoinedEnd(ps, AtEnd(env));
    assert Sent(ps) + "" == Sent(ps);
    if afterDataLine && ps != [] {
      SentEnds(ps);
      var cut := Sent(ps)[..|Sent(ps)| - 1];
      assert cut + ("" + ([LF] + "")) == Sent(ps) && cut + "" == cut;
      BlankIsNoise();
      WholeLinesCut(ps);
      NoiseIsInvisible(env, cut, "", "", 0);
    }
  }

  lemma WholeLinesCut(ps: seq<string>)
    requires ps != []
    ensures |Sent(ps)| >= 2 && WholeLines(Sent(ps)[..|Sent(ps)| - 1])
  {}

  lemma BlankIsNoise()
    ensures Noise("")
  {}

  lemma {:induction false} SentEnds(ps: seq<string>)
    requires ps != []
    ensures var s := Sent(ps); |s| >= 2 && s[|s| - 1] == LF && s[|s| - 2] == LF
  {
    if |ps| > 1 {
      SentEnds(ps[1..]);
    } else {
      assert Sent(ps) == Event(ps[0]) + "";
    }
  }

  /** The first chunk in trouble ends the reading, whatever follows it: a line too long or one that
      does not decode after the chunks before it, a refused callback after that chunk too. */
  lemma {:induction false} FirstTroubleEnds(env: Env, ps: seq<string>, p: string, tail: string)
    requires Taking(env, ps, 0) && AllFit(ps) && ChunkText(p)
    requires !Fits(p) || !env.decodes(p) || !env.accepts(|ps|)
    ensures Parse(env, Sent(ps) + (Event(p) + tail), 0)
         == if !Fits(p) then Parsed(ps, LineTooLong)
            else if !env.decodes(p) then Parsed(ps, BadChunk)
            else Parsed(ps + [p], Aborted)
  {
    hide *;
    SentThen(env, ps, Event(p) + tail, 0);
    OneEvent(env, p, tail, |ps|);
    JoinedEnd(ps, LineTooLong);
    JoinedEnd(ps, BadChunk);
    JoinedOne(ps, p, Aborted);
  }

  lemma JoinedOne(ps: seq<string>, p: string, ending: Ending)
    ensures Joined(ps, Parsed([p], ending)) == Parsed(ps + [p], ending)
  {}

  /** After a failure the writer sends the error as one more event and then the terminator. A reader
      like this one takes the truncated answer as complete, with the error as its last chunk,
      exactly if the error body decodes as a chunk and every line fits; a body that fits and does
      not decode is a bad chunk after those sent. */
  lemma {:induction false} ErrorEventReadsAsSuccess(env: Env, ps: seq<string>, error: string)
    requires Willing(env, ps) && ChunkText(error)
    ensures var r := Parse(env, Sent(ps) + (Event(error) + Event(TERMINATOR)), 0);
            && (r.ending == Success <==> AllFit(ps) && Fits(error) && env.decodes(error))
            && (r.ending == Success ==> r == Parsed(ps + [error], Success))
            && (AllFit(ps) && Fits(error) && !env.decodes(error) ==> r == Parsed(ps, BadChunk))
            && (!(AllFit(ps) && Fits(error)) ==> r.ending == LineTooLong)
  {
    hide *;
    var tail := Event(error) + Event(TERMINATOR);
    if !AllFit(ps) {
      TooLongFails(env, ps, tail, 0);
    } else {
      WillingTakes(env, ps);
      SentThen(env, ps, tail, 0);
      AcceptsAll(env, ps, |ps|);
      OneEvent(env, error, Event(TERMINATOR), |ps|);
      TerminatorEnds(env, |ps| + 1);
      JoinedEnd(ps, LineTooLong);
      JoinedEnd(ps, BadChunk);
      JoinedCons(ps, error, Parsed([], Success));
      JoinedEnd(ps + [error], Success);
    }
  }

  lemma AcceptsAll(env: Env, ps: seq<string>, n: nat)
    requires Willing(env, ps)
    ensures env.accepts(n)
  {}
}
