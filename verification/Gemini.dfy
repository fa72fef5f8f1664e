/** Translating an OpenAI-shaped conversation into Gemini turns (internal/provider/gemini.go). */
module Gemini {
  import opened Prelude
  import opened CacheKey
  import opened Text

  const SYSTEM := "system"
  const ASSISTANT := "assistant"

  datatype Turn = Turn(role: string, parts: seq<string>)

  datatype GenerationConfig = GenerationConfig(
    temperature: Option<real>, topP: Option<real>, maxOutputTokens: Option<int>, stopSequences: seq<string>)

  datatype GeminiRequest = GeminiRequest(
    contents: seq<Turn>, systemInstruction: Option<string>, config: GenerationConfig)

  function RoleOf(m: Message): string { if m.role == ASSISTANT then "model" else "user" }

  /** The conversation without its system messages, one (role, text) pair per message. */
  function Spoken(ms: seq<Message>): seq<(string, string)> {
    if ms == [] then []
    else
      var m := ms[|ms| - 1];
      Spoken(ms[..|ms| - 1])
      + (if m.role == "system" then [] else [(if m.role == "assistant" then "model" else "user", m.content)])
  }

  function SystemTexts(ms: seq<Message>): seq<string> {
    if ms == [] then []
    else
      var m := ms[|ms| - 1];
      SystemTexts(ms[..|ms| - 1]) + (if m.role == "system" then [m.content] else [])
  }

  function Paragraphs(ss: seq<string>): string {
    if ss == [] then "" else if |ss| == 1 then ss[0]
    else Paragraphs(ss[..|ss| - 1]) + "\n\n" + ss[|ss| - 1]
  }

  lemma ParagraphsSnoc(ss: seq<string>)
    requires ss != []
    ensures var n := |ss| - 1; Paragraphs(ss) == if n == 0 then ss[0] else Paragraphs(ss[..n]) + "\n\n" + ss[n]
  {}

  lemma LinesSnoc(p: string, s: string)
    requires '\n' !in s
    ensures SplitOn(p + "\n\n" + s, '\n') == SplitOn(p, '\n') + ["", s]
  {
    hide SplitOn;
    var c := ['\n'];
    assert p + "\n\n" + s == p + c + ("" + c + s);
    SplitOfConcat(p, '\n', "" + c + s);
    SplitOfConcat("", '\n', s);
    SplitFree("", '\n');
    SplitFree(s, '\n');
  }

  /** Texts of one line each can be told from the instruction: they are its lines, with a blank one
      between any two. */
  lemma {:induction false} ParagraphsTellTexts(ss: seq<string>)
    requires ss != [] && Free(ss, '\n')
    ensures var lines := SplitOn(Paragraphs(ss), '\n');
            && |lines| == 2 * |ss| - 1
            && (forall k :: 0 <= k < |ss| ==> lines[2 * k] == ss[k])
            && (forall k :: 0 <= k < |ss| - 1 ==> lines[2 * k + 1] == "")
  {
    hide SplitOn, Paragraphs;
    var n := |ss| - 1;
    SplitFree(ss[n], '\n');
    ParagraphsSnoc(ss);
    if n > 0 {
      ParagraphsTellTexts(ss[..n]);
      LinesSnoc(Paragraphs(ss[..n]), ss[n]);
      var lines := SplitOn(Paragraphs(ss[..n]), '\n');
      assert forall k :: 0 <= k < n ==> (lines + ["", ss[n]])[2 * k] == ss[..n][k];
      assert forall k :: 0 <= k < n - 1 ==> (lines + ["", ss[n]])[2 * k + 1] == "";
    }
  }

  function Said(t: Turn): (r: seq<(string, string)>)
    ensures |r| == |t.parts| && forall k :: 0 <= k < |r| ==> r[k] == (t.role, t.parts[k])
  {
    seq(|t.parts|, k requires 0 <= k < |t.parts| => (t.role, t.parts[k]))
  }

  function Flatten(turns: seq<Turn>): seq<(string, string)> {
    if turns == [] then [] else Said(turns[0]) + Flatten(turns[1..])
  }

  /** Turns as Gemini wants them: none empty, and no two neighbours with the same role. */
  ghost predicate Alternating(turns: seq<Turn>) {
    && (forall i :: 0 <= i < |turns| ==> turns[i].parts != [])
    && (forall i :: 0 < i < |turns| ==> turns[i - 1].role != turns[i].role)
  }

  lemma {:induction false} FlattenSnoc(turns: seq<Turn>, t: Turn)
    ensures Flatten(turns + [t]) == Flatten(turns) + Said(t)
  {
    if turns == [] {
      assert turns + [t] == [t];
      assert Flatten([t]) == Said(t) + [];
    } else {
      assert (turns + [t])[1..] == turns[1..] + [t];
      FlattenSnoc(turns[1..], t);
    }
  }

  /** Adding a part to the last turn adds its text at the end. */
  lemma FlattenMerge(turns: seq<Turn>, text: string)
    requires turns != []
    ensures var n := |turns| - 1;
            Flatten(turns[n := turns[n].(parts := turns[n].parts + [text])]) == Flatten(turns) + [(turns[n].role, text)]
  {
    var n := |turns| - 1;
    var merged := turns[n].(parts := turns[n].parts + [text]);
    assert turns == turns[..n] + [turns[n]];
    assert turns[n := merged] == turns[..n] + [merged];
    FlattenSnoc(turns[..n], turns[n]);
    FlattenSnoc(turns[..n], merged);
    assert Said(merged) == Said(turns[n]) + [(turns[n].role, text)];
  }

  /** Puts a text after the last turn, merging it if the role repeats. */
  function Say(turns: seq<Turn>, role: string, text: string): seq<Turn> {
    var n := |turns|;
    if n > 0 && turns[n - 1].role == role then
      turns[n - 1 := turns[n - 1].(parts := turns[n - 1].parts + [text])]
    else turns + [Turn(role, [text])]
  }

  lemma SayKeepsShape(turns: seq<Turn>, role: string, text: string)
    requires Alternating(turns)
    ensures Alternating(Say(turns, role, text))
    ensures Flatten(Say(turns, role, text)) == Flatten(turns) + [(role, text)]
  {
    if turns != [] { FlattenMerge(turns, text); }
    FlattenSnoc(turns, Turn(role, [text]));
    assert Said(Turn(role, [text])) == [(role, text)];
  }

  lemma OneMore(ms: seq<Message>, i: nat)
    requires i < |ms|
    ensures Spoken(ms[..i + 1]) == Spoken(ms[..i]) + (if ms[i].role == SYSTEM then [] else [(RoleOf(ms[i]), ms[i].content)])
    ensures SystemTexts(ms[..i + 1]) == SystemTexts(ms[..i]) + (if ms[i].role == SYSTEM then [ms[i].content] else [])
  {
    assert ms[..i + 1][..i] == ms[..i];
  }

  method ToGemini(req: Request) returns (out: GeminiRequest)
    ensures Alternating(out.contents) && Flatten(out.contents) == Spoken(req.messages)
    ensures out.systemInstruction == if SystemTexts(req.messages) == [] then None
                                     else Some(Paragraphs(SystemTexts(req.messages)))
    ensures out.config == GenerationConfig(req.temperature, req.topP, req.maxTokens, req.stop)
  {
    var ms := req.messages;
    var contents: seq<Turn>, systemParts: seq<string> := [], [];
    assert Alternating(contents) && Flatten(contents) == Spoken(ms[..0]) && SystemTexts(ms[..0]) == [];
    hide Alternating, Flatten, Spoken, SystemTexts, Paragraphs;
    for i := 0 to |ms|
      invariant Alternating(contents) && Flatten(contents) == Spoken(ms[..i])
      invariant systemParts == SystemTexts(ms[..i])
    {
      var m := ms[i];
      OneMore(ms, i);
      if m.role == SYSTEM {
        systemParts := systemParts + [m.content];
        continue;
      }
      var role := RoleOf(m);
      SayKeepsShape(contents, role, m.content);
      var n := |contents|;
      if n > 0 && contents[n - 1].role == role {
        contents := contents[n - 1 := contents[n - 1].(parts := contents[n - 1].parts + [m.content])];
        continue;
      }
      contents := contents + [Turn(role, [m.content])];
    }
    assert ms[..|ms|] == ms;
    var system := None;
    if |systemParts| > 0 {
      system := Some(Paragraphs(systemParts));
    }
    out := GeminiRequest(contents, system, GenerationConfig(req.temperature, req.topP, req.maxTokens, req.stop));
  }

  // ---------------------------------------------------------------- the translation is forced

  /** The first turn is as long as the run of its role. */
  lemma FirstTurnEnds(turns: seq<Turn>)
    requires Alternating(turns) && turns != []
    ensures var f, n := Flatten(turns), |turns[0].parts|;
            && n <= |f| && (forall k :: 0 <= k < n ==> f[k] == (turns[0].role, turns[0].parts[k]))
            && (n < |f| ==> f[n].0 != turns[0].role)
            && f[n..] == Flatten(turns[1..])
  {}

  /** No other sequence of alternating turns says the same: content and alternation determine the
      turns. */
  lemma {:induction false} TurnsAreForced(a: seq<Turn>, b: seq<Turn>)
    requires Alternating(a) && Alternating(b) && Flatten(a) == Flatten(b)
    ensures a == b
  {
    if a == [] || b == [] {
      if a != [] { FirstTurnEnds(a); }
      if b != [] { FirstTurnEnds(b); }
    } else {
      FirstTurnEnds(a);
      FirstTurnEnds(b);
      var f := Flatten(a);
      assert f[0].0 == a[0].role == b[0].role;
      assert |a[0].parts| == |b[0].parts|;
      assert a[0].parts == b[0].parts by {
        forall k | 0 <= k < |a[0].parts|
          ensures a[0].parts[k] == b[0].parts[k]
        {
          assert f[k] == (a[0].role, a[0].parts[k]) && f[k] == (b[0].role, b[0].parts[k]);
        }
      }
      TurnsAreForced(a[1..], b[1..]);
      assert a == [a[0]] + a[1..] && b == [b[0]] + b[1..];
    }
  }
}
