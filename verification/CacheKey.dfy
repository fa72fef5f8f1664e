/** The text the exact cache key digests, and the prompt the semantic tier embeds
    (internal/cache/normalize.go). */
module CacheKey {
  import opened Prelude
  import opened Text

  datatype Message = Message(role: string, content: string, name: string)

  datatype Request = Request(
    model: string, messages: seq<Message>, temperature: Option<real>, topP: Option<real>,
    maxTokens: Option<int>, stream: bool, stop: seq<string>, user: string)

  /** unicode.ToLower on one character, and the six-digit rendering of a float. */
  datatype Rendering = Rendering(lower: char -> char, float: real -> string)

  const NUL := 0 as char

  function Temp(r: Request): real { if r.temperature.Some? then r.temperature.value else 1.0 }

  function MaxTok(r: Request): int { if r.maxTokens.Some? then r.maxTokens.value else 0 }

  function Lower(rd: Rendering, s: string): string { Mapped(rd.lower, s) }

  function NormalizeModel(rd: Rendering, m: string): string { Lower(rd, Trim(m)) }

  function NormalizeContent(s: string): string { Join(Fields(s), ' ') }

  // ---------------------------------------------------------------- what is written to the digest

  /** Everything the digest depends on. */
  datatype Inputs = Inputs(
    tenant: string, model: string, messages: seq<Message>, temp: string, maxTokens: int,
    topP: Option<string>, stop: Option<string>)

  function InputsOf(rd: Rendering, tenant: string, r: Request): Inputs {
    Inputs(tenant, NormalizeModel(rd, r.model),
           seq(|r.messages|, i requires 0 <= i < |r.messages| =>
             r.messages[i].(content := NormalizeContent(r.messages[i].content))),
           rd.float(Temp(r)), MaxTok(r),
           if r.topP.Some? then Some(rd.float(r.topP.value)) else None,
           if r.stop == [] then None else Some(Join(r.stop, NUL)))
  }

  function HeadParts(x: Inputs): seq<string> {
    ["tenant", x.tenant, "model", x.model, "messages", Decimal(|x.messages|)]
  }

  function MessageParts(ms: seq<Message>): (r: seq<string>)
    ensures |r| == 6 * |ms|
  {
    if ms == [] then []
    else MessageParts(ms[..|ms| - 1]) + PartsOfMessage(ms[|ms| - 1])
  }

  function PartsOfMessage(m: Message): seq<string> {
    ["role", m.role, "name", m.name, "content", m.content]
  }

  function TailParts(x: Inputs): seq<string> {
    ["temperature", x.temp, "max_tokens", Itoa(x.maxTokens)]
    + (if x.topP.Some? then ["top_p", x.topP.value] else [])
    + (if x.stop.Some? then ["stop", x.stop.value] else [])
  }

  function Parts(x: Inputs): seq<string> { HeadParts(x) + MessageParts(x.messages) + TailParts(x) }

  /** The text that is hashed. */
  function Digested(rd: Rendering, tenant: string, r: Request): string {
    Encode(Parts(InputsOf(rd, tenant, r)))
  }

  // ---------------------------------------------------------------- the source's loops

  /** Adds fields to the digest. `before` is what has been written so far. */
  method Write(h0: string, parts: seq<string>, ghost before: seq<string>) returns (h: string)
    requires h0 == Encode(before)
    ensures h == Encode(before + parts)
  {
    h := h0;
    assert before + parts[..0] == before;
    for k := 0 to |parts|
      invariant h == Encode(before + parts[..k])
    {
      EncodeSnoc(before + parts[..k], parts[k]);
      assert before + parts[..k + 1] == before + parts[..k] + [parts[k]];
      h := h + Prefixed(parts[k]);
    }
    assert parts[..|parts|] == parts;
  }

  lemma EncodeSnoc(a: seq<string>, p: string)
    ensures Encode(a + [p]) == Encode(a) + Prefixed(p)
  {
    EncodeAppend(a, [p]);
    assert Encode([p]) == Prefixed(p) + "";
  }

  method ExactKeyText(rd: Rendering, tenant: string, req: Request) returns (h: string)
    ensures h == Digested(rd, tenant, req)
  {
    ghost var x := InputsOf(rd, tenant, req);
    assert "" == Encode([]);
    hide Encode, NormalizeContent, NormalizeModel, Decimal, Itoa, Join, MessageParts, TailParts, Temp;
    h := Write("", ["tenant", tenant], []);
    assert [] + ["tenant", tenant] == ["tenant", tenant];
    h := Write(h, ["model", NormalizeModel(rd, req.model)], ["tenant", tenant]);
    assert ["tenant", tenant] + ["model", x.model] == ["tenant", tenant, "model", x.model];
    h := Write(h, ["messages", Decimal(|req.messages|)], ["tenant", tenant, "model", x.model]);
    assert ["tenant", tenant, "model", x.model] + ["messages", Decimal(|req.messages|)] == HeadParts(x);
    h := WriteMessages(h, req.messages, HeadParts(x), x.messages);
    h := WriteTail(rd, req, h, HeadParts(x) + MessageParts(x.messages), x);
  }

  method WriteMessages(h0: string, messages: seq<Message>, ghost before: seq<string>, ghost normalized: seq<Message>)
    returns (h: string)
    requires h0 == Encode(before) && |normalized| == |messages|
    requires forall i :: 0 <= i < |messages| ==>
               normalized[i] == messages[i].(content := NormalizeContent(messages[i].content))
    ensures h == Encode(before + MessageParts(normalized))
  {
    hide Encode, NormalizeContent, MessageParts;
    h := h0;
    NoMessages(before, normalized);
    for i := 0 to |messages|
      invariant h == Encode(before + MessageParts(normalized[..i]))
    {
      var m := messages[i];
      h := Write(h, ["role", m.role, "name", m.name, "content", NormalizeContent(m.content)],
                 before + MessageParts(normalized[..i]));
      OneMessage(before, normalized, i);
    }
    assert normalized[..|messages|] == normalized;
  }

  lemma NoMessages(before: seq<string>, ms: seq<Message>)
    ensures before + MessageParts(ms[..0]) == before
  {}

  lemma OneMessage(before: seq<string>, ms: seq<Message>, i: nat)
    requires i < |ms|
    ensures before + MessageParts(ms[..i + 1]) == before + MessageParts(ms[..i]) + PartsOfMessage(ms[i])
  {
    assert ms[..i + 1][..i] == ms[..i];
  }

  method WriteTail(
      rd: Rendering, req: Request, h0: string, ghost before: seq<string>, ghost x: Inputs) returns (h: string)
    requires h0 == Encode(before)
    requires x.temp == rd.float(Temp(req)) && x.maxTokens == MaxTok(req)
    requires x.topP == if req.topP.Some? then Some(rd.float(req.topP.value)) else None
    requires x.stop == if req.stop == [] then None else Some(Join(req.stop, NUL))
    ensures h == Encode(before + TailParts(x))
  {
    hide Encode, Join;
    ghost var fixed, top := ["temperature", x.temp, "max_tokens", Itoa(x.maxTokens)], [];
    h := Write(h0, ["temperature", rd.float(Temp(req))], before);
    h := Write(h, ["max_tokens", Itoa(MaxTok(req))], before + ["temperature", x.temp]);
    assert before + ["temperature", x.temp] + ["max_tokens", Itoa(x.maxTokens)] == before + fixed;
    assert before + fixed + top == before + fixed;
    if req.topP.Some? {
      top := ["top_p", x.topP.value];
      h := Write(h, ["top_p", rd.float(req.topP.value)], before + fixed);
    }
    assert before + fixed + top + [] == before + fixed + top;
    if |req.stop| > 0 {
      h := Write(h, ["stop", Join(req.stop, NUL)], before + fixed + top);
    }
    Associate(before, fixed, top, if x.stop.Some? then ["stop", x.stop.value] else []);
  }

  lemma Associate(a: seq<string>, b: seq<string>, c: seq<string>, d: seq<string>)
    ensures a + b + c + d == a + (b + c + d)
  {}

  // ---------------------------------------------------------------- what the digest determines

  lemma {:induction false} MessagePartsInjective(ms: seq<Message>, ns: seq<Message>)
    requires |ms| == |ns| && MessageParts(ms) == MessageParts(ns)
    ensures ms == ns
  {
    if ms != [] {
      var k := |ms| - 1;
      var a, b := MessageParts(ms[..k]), MessageParts(ns[..k]);
      var p, q := PartsOfMessage(ms[k]), PartsOfMessage(ns[k]);
      assert a + p == b + q;
      Cut(a, p, b, q);
      MessagePartsInjective(ms[..k], ns[..k]);
      assert p[1] == q[1] && p[3] == q[3] && p[5] == q[5];
      assert ms == ms[..k] + [ms[k]] && ns == ns[..k] + [ns[k]];
    }
  }

  lemma Cut(a: seq<string>, p: seq<string>, b: seq<string>, q: seq<string>)
    requires a + p == b + q && |a| == |b|
    ensures a == b && p == q
  {
    assert a == (a + p)[..|a|] && b == (b + q)[..|b|];
    assert p == (a + p)[|a|..] && q == (b + q)[|b|..];
  }

  lemma TailPartsInjective(x: Inputs, y: Inputs)
    requires TailParts(x) == TailParts(y)
    ensures x.temp == y.temp && x.maxTokens == y.maxTokens && x.topP == y.topP && x.stop == y.stop
  {
    var s, t := TailParts(x), TailParts(y);
    assert s[1] == t[1] && s[3] == t[3];
    ItoaInjective(x.maxTokens, y.maxTokens);
    assert |s| > 4 ==> s[4] == t[4] && s[5] == t[5];
    assert |s| > 6 ==> s[6] == t[6] && s[7] == t[7];
  }

  lemma Grouped(a: seq<string>, b: seq<string>, c: seq<string>)
    ensures a + b + c == a + (b + c)
  {}

  lemma HeadPartsInjective(x: Inputs, y: Inputs)
    requires HeadParts(x) == HeadParts(y)
    ensures x.tenant == y.tenant && x.model == y.model && |x.messages| == |y.messages|
  {
    var h, k := HeadParts(x), HeadParts(y);
    assert h[1] == k[1] && h[3] == k[3] && h[5] == k[5];
    ValueOfDecimal(|x.messages|);
    ValueOfDecimal(|y.messages|);
  }

  lemma PartsInjective(x: Inputs, y: Inputs)
    ensures Parts(x) == Parts(y) <==> x == y
  {
    if Parts(x) == Parts(y) {
      var h, k := HeadParts(x), HeadParts(y);
      Grouped(h, MessageParts(x.messages), TailParts(x));
      Grouped(k, MessageParts(y.messages), TailParts(y));
      Cut(h, MessageParts(x.messages) + TailParts(x), k, MessageParts(y.messages) + TailParts(y));
      HeadPartsInjective(x, y);
      hide HeadParts, MessageParts, TailParts;
      Cut(MessageParts(x.messages), TailParts(x), MessageParts(y.messages), TailParts(y));
      MessagePartsInjective(x.messages, y.messages);
      TailPartsInjective(x, y);
    }
  }

  /** The same letters up to case, white space around them aside. */
  ghost predicate SameAlias(rd: Rendering, m: string, n: string) {
    exists c, d :: CoreOf(m, c) && CoreOf(n, d) && SameLetters(rd, c, d)
  }

  ghost predicate SameLetters(rd: Rendering, c: string, d: string) {
    |c| == |d| && forall k :: 0 <= k < |c| ==> rd.lower(c[k]) == rd.lower(d[k])
  }

  /** The two requests may share a cache entry. Without a temperature a request is one for 1, and
      without a completion limit one for 0. */
  ghost predicate Interchangeable(rd: Rendering, t: string, a: Request, u: string, b: Request) {
    && t == u
    && SameAlias(rd, a.model, b.model)
    && |a.messages| == |b.messages|
    && (forall i :: 0 <= i < |a.messages| ==> SameMessage(a.messages[i], b.messages[i]))
    && rd.float(if a.temperature.Some? then a.temperature.value else 1.0)
       == rd.float(if b.temperature.Some? then b.temperature.value else 1.0)
    && (if a.maxTokens.Some? then a.maxTokens.value else 0) == (if b.maxTokens.Some? then b.maxTokens.value else 0)
    && a.topP.Some? == b.topP.Some?
    && (a.topP.Some? ==> rd.float(a.topP.value) == rd.float(b.topP.value))
    && Pieces(a.stop, NUL) == Pieces(b.stop, NUL)
  }

  /** Equal up to white space between and around the words. */
  ghost predicate SameMessage(m: Message, n: Message) {
    m.role == n.role && m.name == n.name && Fields(m.content) == Fields(n.content)
  }

  lemma ContentTellsWords(s: string, t: string)
    ensures NormalizeContent(s) == NormalizeContent(t) <==> Fields(s) == Fields(t)
  {
    FieldsAreWords(s);
    FieldsAreWords(t);
    FieldsOfJoin(Fields(s));
    FieldsOfJoin(Fields(t));
  }

  lemma StopTellsPieces(a: Request, b: Request)
    ensures (if a.stop == [] then None else Some(Join(a.stop, NUL))) == (if b.stop == [] then None else Some(Join(b.stop, NUL)))
       <==> Pieces(a.stop, NUL) == Pieces(b.stop, NUL)
  {
    if a.stop != [] && b.stop != [] { JoinTellsPieces(a.stop, b.stop, NUL); }
  }

  lemma NormalizedTellsAlias(rd: Rendering, m: string, n: string)
    ensures NormalizeModel(rd, m) == NormalizeModel(rd, n) <==> SameAlias(rd, m, n)
  {
    forall s | true
      ensures CoreOf(m, s) <==> s == Trim(m)
      ensures CoreOf(n, s) <==> s == Trim(n)
    {
      TrimIsCore(m, s);
      TrimIsCore(n, s);
    }
    hide CoreOf, Trim;
    var c, d := Trim(m), Trim(n);
    if NormalizeModel(rd, m) == NormalizeModel(rd, n) {
      forall k | 0 <= k < |c|
        ensures rd.lower(c[k]) == rd.lower(d[k])
      {
        assert NormalizeModel(rd, m)[k] == NormalizeModel(rd, n)[k];
      }
      assert CoreOf(m, c) && CoreOf(n, d) && SameLetters(rd, c, d);
    }
  }

  lemma SameInputs(rd: Rendering, t: string, a: Request, u: string, b: Request)
    ensures InputsOf(rd, t, a) == InputsOf(rd, u, b) <==> Interchangeable(rd, t, a, u, b)
  {
    var x, y := InputsOf(rd, t, a), InputsOf(rd, u, b);
    hide NormalizeContent, NormalizeModel, Join, Pieces, Fields, SameAlias;
    NormalizedTellsAlias(rd, a.model, b.model);
    StopTellsPieces(a, b);
    forall i | 0 <= i < |a.messages| == |b.messages|
      ensures x.messages[i] == y.messages[i] <==> SameMessage(a.messages[i], b.messages[i])
    {
      ContentTellsWords(a.messages[i].content, b.messages[i].content);
    }
    if x.messages == y.messages {
      assert |a.messages| == |b.messages|;
      assert forall i :: 0 <= i < |a.messages| ==> x.messages[i] == y.messages[i];
    }
  }

  /** Two requests give the same digest input exactly when they are interchangeable: tenant,
      normalized alias, roles, names, words of each message, rendered temperature and top_p,
      max_tokens, and the stop sequences cut at NUL all agree. */
  lemma DigestTellsRequest(rd: Rendering, t: string, a: Request, u: string, b: Request)
    ensures Digested(rd, t, a) == Digested(rd, u, b) <==> Interchangeable(rd, t, a, u, b)
  {
    var x, y := InputsOf(rd, t, a), InputsOf(rd, u, b);
    EncodeInjective(Parts(x), Parts(y));
    PartsInjective(x, y);
    SameInputs(rd, t, a, u, b);
  }

  /** Two aliases, each with any white space around it, share keys exactly when their letters agree
      up to case. */
  lemma {:induction false} AliasesToldApart(
      rd: Rendering, t: string, a: Request, u: string, m: string, v: string, x: string, n: string, y: string)
    requires Blank(u) && Blank(v) && Blank(x) && Blank(y) && Bare(m) && Bare(n)
    ensures Digested(rd, t, a.(model := u + (m + v))) == Digested(rd, t, a.(model := x + (n + y)))
       <==> |m| == |n| && forall k :: 0 <= k < |m| ==> rd.lower(m[k]) == rd.lower(n[k])
  {
    hide Digested, CoreOf, SameAlias;
    DigestTellsRequest(rd, t, a.(model := u + (m + v)), t, a.(model := x + (n + y)));
    AliasOfCores(rd, u, m, v, x, n, y);
  }

  lemma CoreIs(u: string, m: string, v: string, s: string)
    requires Blank(u) && Blank(v) && Bare(m)
    ensures CoreOf(u + (m + v), s) <==> s == m
  {
    TrimIsCore(u + (m + v), s);
    TrimPadded(u, m, v);
    BareIsTrimmed(m);
  }

  lemma AliasOfCores(rd: Rendering, u: string, m: string, v: string, x: string, n: string, y: string)
    requires Blank(u) && Blank(v) && Blank(x) && Blank(y) && Bare(m) && Bare(n)
    ensures SameAlias(rd, u + (m + v), x + (n + y)) <==> SameLetters(rd, m, n)
  {
    hide CoreOf, SameLetters;
    forall s | true
      ensures CoreOf(u + (m + v), s) <==> s == m
      ensures CoreOf(x + (n + y), s) <==> s == n
    {
      CoreIs(u, m, v, s);
      CoreIs(x, n, y, s);
    }
  }

  /** Without NUL in them, the stop sequences themselves are determined. */
  lemma DigestTellsStops(rd: Rendering, t: string, a: Request, u: string, b: Request)
    requires Free(a.stop, NUL) && Free(b.stop, NUL)
    requires Digested(rd, t, a) == Digested(rd, u, b)
    ensures a.stop == b.stop
  {
    DigestTellsRequest(rd, t, a, u, b);
    PiecesFree(a.stop, NUL);
    PiecesFree(b.stop, NUL);
  }

  /** With NUL they are not: one stop "a NUL b" and the two stops "a", "b" share a key. */
  lemma StopsCanCollide(rd: Rendering, t: string, a: Request)
    ensures var b, c := a.(stop := [['a', NUL, 'b']]), a.(stop := ["a", "b"]);
            b != c && Digested(rd, t, b) == Digested(rd, t, c)
  {
    var b, c := a.(stop := [['a', NUL, 'b']]), a.(stop := ["a", "b"]);
    assert c.stop[1..] == ["b"];
    assert Join(b.stop, NUL) == Join(c.stop, NUL);
    JoinTellsPieces(b.stop, c.stop, NUL);
    DigestTellsRequest(rd, t, b, t, c);
  }

  /** White space around an alias and the case of its letters make no difference. */
  lemma AliasNormalized(rd: Rendering, m: string, u: string, n: string, v: string)
    requires KeepsSpace(rd.lower) && Blank(u) && Blank(v) && Lower(rd, n) == Lower(rd, m)
    ensures NormalizeModel(rd, u + (n + v)) == NormalizeModel(rd, m)
  {
    TrimPadded(u, n, v);
    TrimLeftMapped(rd.lower, n);
    TrimRightMapped(rd.lower, TrimLeft(n));
    TrimLeftMapped(rd.lower, m);
    TrimRightMapped(rd.lower, TrimLeft(m));
  }

  /** What must not matter does not: the stream flag, the user tag, the alias's case and padding. */
  lemma {:induction false} IgnoredFields(
      rd: Rendering, t: string, a: Request, stream: bool, user: string, u: string, alias: string, v: string)
    requires KeepsSpace(rd.lower) && Blank(u) && Blank(v) && Lower(rd, alias) == Lower(rd, a.model)
    ensures Digested(rd, t, a.(stream := stream, user := user, model := u + (alias + v))) == Digested(rd, t, a)
  {
    hide NormalizeModel, Digested, SameAlias;
    AliasNormalized(rd, a.model, u, alias, v);
    NormalizedTellsAlias(rd, u + (alias + v), a.model);
    DigestTellsRequest(rd, t, a.(stream := stream, user := user, model := u + (alias + v)), t, a);
  }

  /** An alias written all in lower case, with any padding, gives the key of the alias as it was. */
  lemma LoweredAlias(rd: Rendering, t: string, a: Request, u: string, v: string)
    requires KeepsSpace(rd.lower) && Blank(u) && Blank(v)
    requires forall c :: rd.lower(rd.lower(c)) == rd.lower(c)
    ensures Digested(rd, t, a.(model := u + (Lower(rd, a.model) + v))) == Digested(rd, t, a)
  {
    hide Digested;
    assert Lower(rd, Lower(rd, a.model)) == Lower(rd, a.model);
    IgnoredFields(rd, t, a, a.stream, a.user, u, Lower(rd, a.model), v);
  }

  lemma OneContent(rd: Rendering, t: string, a: Request, i: nat, content: string)
    requires i < |a.messages|
    ensures var b := a.(messages := a.messages[i := a.messages[i].(content := content)]);
            Interchangeable(rd, t, a, t, b) <==> Fields(a.messages[i].content) == Fields(content)
  {
    hide Fields, SameAlias, Pieces;
    NormalizedTellsAlias(rd, a.model, a.model);
    var b := a.(messages := a.messages[i := a.messages[i].(content := content)]);
    assert SameMessage(a.messages[i], b.messages[i]) <==> Fields(a.messages[i].content) == Fields(content);
  }

  /** Replacing one stretch of white space in a message by another, either of which may be empty,
      leaves the digest the same exactly when it joins or parts no words: both or neither are
      empty, or the stretch is at an end of the message or next to other white space. */
  lemma {:induction false} LayoutIgnored(
      rd: Rendering, t: string, a: Request, i: nat, left: string, u: string, v: string, right: string)
    requires i < |a.messages| && Blank(u) && Blank(v)
    requires a.messages[i].content == left + (u + right)
    ensures var b := a.(messages := a.messages[i := a.messages[i].(content := left + (v + right))]);
            Digested(rd, t, a) == Digested(rd, t, b)
            <==> || (u == "") == (v == "") || left == "" || right == ""
                 || IsSpace(left[|left| - 1]) || IsSpace(right[0])
  {
    var b := a.(messages := a.messages[i := a.messages[i].(content := left + (v + right))]);
    hide Fields, Digested, Interchangeable, Blank;
    FieldsTellLayout(left, u, v, right);
    OneContent(rd, t, a, i, left + (v + right));
    DigestTellsRequest(rd, t, a, t, b);
  }

  lemma FieldsTellLayout(left: string, u: string, v: string, right: string)
    requires Blank(u) && Blank(v)
    ensures Fields(left + (u + right)) == Fields(left + (v + right)) <==> Separates(left, u, right) == Separates(left, v, right)
  {
    hide Fields;
    assert u == "" ==> left + (u + right) == left + right;
    assert v == "" ==> left + (v + right) == left + right;
    if Separates(left, u, right) { FieldsSeparated(left, u, right); } else { FieldsGlued(left, right); }
    if Separates(left, v, right) { FieldsSeparated(left, v, right); } else { FieldsGlued(left, right); }
  }

  /** Indentation before a message and line breaks after it leave it as it was. */
  lemma PaddingIgnored(u: string, s: string, v: string)
    requires Blank(u) && Blank(v)
    ensures NormalizeContent(u + (s + v)) == NormalizeContent(s)
  {
    hide Fields;
    FieldsSkip(u, s + v);
    FieldsSeparated(s, v, "");
    FieldsBlank("");
    assert s + (v + "") == s + v && Fields(s) + [] == Fields(s);
  }

  // ---------------------------------------------------------------- the embedded prompt

  function Line(m: Message): string { m.role + ": " + NormalizeContent(m.content) }

  /** One line per message, without a final line break. */
  function PromptText(ms: seq<Message>): string {
    if ms == [] then ""
    else if |ms| == 1 then Line(ms[0])
    else PromptText(ms[..|ms| - 1]) + "\n" + Line(ms[|ms| - 1])
  }

  method BuildPromptText(req: Request) returns (b: string)
    ensures b == PromptText(req.messages)
  {
    b := "";
    var ms := req.messages;
    for i := 0 to |ms|
      invariant b == PromptText(ms[..i])
    {
      if i > 0 {
        b := b + "\n";
      }
      b := b + ms[i].role;
      b := b + ": ";
      b := b + NormalizeContent(ms[i].content);
      assert ms[..i + 1][..i] == ms[..i];
    }
    assert ms[..|ms|] == ms;
  }

  function Lines(ms: seq<Message>): (r: seq<string>)
    ensures |r| == |ms| && forall i :: 0 <= i < |ms| ==> r[i] == Line(ms[i])
  {
    seq(|ms|, i requires 0 <= i < |ms| => Line(ms[i]))
  }

  const LF := '\n'

  lemma {:induction false} PromptIsLines(ms: seq<Message>)
    ensures PromptText(ms) == Join(Lines(ms), LF)
  {
    if |ms| > 1 {
      var n := |ms| - 1;
      PromptIsLines(ms[..n]);
      assert Lines(ms) == Lines(ms[..n]) + [Line(ms[n])];
      hide Line;
      JoinSnoc(Lines(ms[..n]), Line(ms[n]), LF);
    }
  }

  lemma {:induction false} WordsStayOnLine(ws: seq<string>)
    requires Words(ws)
    ensures LF !in Join(ws, ' ')
  {
    if ws != [] {
      assert Word(ws[0]);
      WordsStayOnLine(ws[1..]);
    }
  }

  /** A role that can be told from what follows it. */
  predicate Plain(role: string) { LF !in role && ':' !in role }

  ghost predicate PlainRoles(ms: seq<Message>) { forall i :: 0 <= i < |ms| ==> Plain(ms[i].role) }

  lemma LineStaysOnLine(m: Message)
    requires Plain(m.role)
    ensures LF !in Line(m)
  {
    FieldsAreWords(m.content);
    WordsStayOnLine(Fields(m.content));
  }

  lemma LineTells(m: Message, n: Message)
    requires Plain(m.role) && Plain(n.role)
    ensures Line(m) == Line(n) <==> m.role == n.role && Fields(m.content) == Fields(n.content)
  {
    ContentTellsWords(m.content, n.content);
    if Line(m) == Line(n) {
      hide NormalizeContent;
      var s, k, l := Line(m), |m.role|, |n.role|;
      assert s[k] == ':' && s[l] == ':';
      assert forall i :: 0 <= i < k ==> s[i] == m.role[i];
      assert forall i :: 0 <= i < l ==> s[i] == n.role[i];
      assert k == l;
      assert m.role == s[..k] == n.role;
      assert NormalizeContent(m.content) == s[k + 2..];
      assert NormalizeContent(n.content) == s[l + 2..];
    }
  }

  /** The embedded text tells the whole conversation: how many messages, and role and words of each. */
  lemma {:induction false} PromptTellsConversation(ms: seq<Message>, ns: seq<Message>)
    requires PlainRoles(ms) && PlainRoles(ns)
    ensures PromptText(ms) == PromptText(ns)
       <==> |ms| == |ns| && forall i :: 0 <= i < |ms| ==>
              ms[i].role == ns[i].role && Fields(ms[i].content) == Fields(ns[i].content)
  {
    PromptIsLines(ms);
    PromptIsLines(ns);
    LinesTell(ms, ns);
    LinesFree(ms);
    LinesFree(ns);
    hide PromptText, Line, Fields, Plain, Join;
    if ms == [] || ns == [] {
      EmptyPrompt(ms);
      EmptyPrompt(ns);
    } else {
      JoinTellsPieces(Lines(ms), Lines(ns), LF);
      PiecesFree(Lines(ms), LF);
      PiecesFree(Lines(ns), LF);
    }
  }

  lemma EmptyPrompt(ms: seq<Message>)
    ensures Join(Lines(ms), LF) == "" <==> ms == []
  {}

  lemma LinesFree(ms: seq<Message>)
    requires PlainRoles(ms)
    ensures Free(Lines(ms), LF)
  {
    forall i | 0 <= i < |ms|
      ensures LF !in Lines(ms)[i]
    {
      LineStaysOnLine(ms[i]);
    }
  }

  lemma LinesTell(ms: seq<Message>, ns: seq<Message>)
    requires PlainRoles(ms) && PlainRoles(ns)
    ensures Lines(ms) == Lines(ns)
       <==> |ms| == |ns| && forall i :: 0 <= i < |ms| ==>
              ms[i].role == ns[i].role && Fields(ms[i].content) == Fields(ns[i].content)
  {
    hide Line, Fields;
    forall i | 0 <= i < |ms| == |ns|
      ensures Lines(ms)[i] == Lines(ns)[i]
         <==> ms[i].role == ns[i].role && Fields(ms[i].content) == Fields(ns[i].content)
    {
      LineTells(ms[i], ns[i]);
    }
    if Lines(ms) == Lines(ns) {
      assert |ms| == |ns| && forall i :: 0 <= i < |ms| ==> Lines(ms)[i] == Lines(ns)[i];
    }
  }
}
