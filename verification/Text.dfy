/** String operations of Go's strings package that the gateway relies on. */
module Text {
  import opened Prelude

  /** unicode.IsSpace. */
  predicate IsSpace(c: char) {
    var x := c as int;
    || 0x09 <= x <= 0x0D || x == 0x20 || x == 0x85 || x == 0xA0 || x == 0x1680
    || 0x2000 <= x <= 0x200A || x == 0x2028 || x == 0x2029 || x == 0x202F || x == 0x205F || x == 0x3000
  }

  /** These are the 25 characters with Unicode's White_Space property. */
  lemma WhiteSpace(c: char)
    ensures IsSpace(c) <==> c as int in {
              0x09, 0x0A, 0x0B, 0x0C, 0x0D, 0x20, 0x85, 0xA0, 0x1680, 0x2000, 0x2001, 0x2002, 0x2003, 0x2004, 0x2005,
              0x2006, 0x2007, 0x2008, 0x2009, 0x200A, 0x2028, 0x2029, 0x202F, 0x205F, 0x3000}
  {}

  ghost predicate Blank(s: string) { forall k :: 0 <= k < |s| ==> IsSpace(s[k]) }

  ghost predicate Word(s: string) { s != "" && forall k :: 0 <= k < |s| ==> !IsSpace(s[k]) }

  /** Length in bytes of the UTF-8 encoding. */
  function ByteLen(s: string): nat {
    if s == "" then 0 else CharLen(s[0]) + ByteLen(s[1..])
  }

  function CharLen(c: char): nat {
    var x := c as int;
    if x < 0x80 then 1 else if x < 0x800 then 2 else if x < 0x10000 then 3 else 4
  }

  /** The UTF-8 encoding of a character: the bits of its code in groups of six, after a first byte
      that tells how many bytes there are (section 3 of RFC 3629). */
  function Utf8(c: char): (bytes: seq<int>) {
    var x := c as int;
    var y := x / 0x40;
    var z := y / 0x40;
    if x < 0x80 then [x]
    else if x < 0x800 then [0xC0 + y, 0x80 + x % 0x40]
    else if x < 0x10000 then [0xE0 + z, 0x80 + y % 0x40, 0x80 + x % 0x40]
    else [0xF0 + z / 0x40, 0x80 + z % 0x40, 0x80 + y % 0x40, 0x80 + x % 0x40]
  }

  /** The code that a first byte and those after it stand for. */
  function CodeOf(b: int, more: seq<int>): Option<int> {
    if more == [] then (if 0 <= b < 0x80 then Some(b) else None)
    else if |more| == 1 then (if 0xC0 <= b < 0xE0 then Some(Continued(b - 0xC0, more)) else None)
    else if |more| == 2 then (if 0xE0 <= b < 0xF0 then Some(Continued(b - 0xE0, more)) else None)
    else if |more| == 3 then (if 0xF0 <= b < 0xF8 then Some(Continued(b - 0xF0, more)) else None)
    else None
  }

  function Continued(bits: int, more: seq<int>): int
    decreases |more|
  {
    if more == [] then bits else Continued(bits * 0x40 + more[0] - 0x80, more[1..])
  }

  lemma Continues(bits: int, b: int, more: seq<int>)
    ensures Continued(bits, [b] + more) == Continued(bits * 0x40 + b - 0x80, more)
  {
    assert ([b] + more)[1..] == more;
  }

  lemma ContinuedOne(bits: int, b: int)
    ensures Continued(bits, [b]) == bits * 0x40 + b - 0x80
  {
    Continues(bits, b, []);
    assert [b] + [] == [b];
  }

  lemma ContinuedTwo(bits: int, a: int, b: int)
    ensures Continued(bits, [a, b]) == (bits * 0x40 + a - 0x80) * 0x40 + b - 0x80
  {
    Continues(bits, a, [b]);
    ContinuedOne(bits * 0x40 + a - 0x80, b);
    assert [a] + [b] == [a, b];
  }

  lemma ContinuedThree(bits: int, a: int, b: int, c: int)
    ensures Continued(bits, [a, b, c]) == ((bits * 0x40 + a - 0x80) * 0x40 + b - 0x80) * 0x40 + c - 0x80
  {
    Continues(bits, a, [b, c]);
    ContinuedTwo(bits * 0x40 + a - 0x80, b, c);
    assert [a] + [b, c] == [a, b, c];
  }

  /** The bytes decode to the character, the bytes after the first having the bits 10 in front. */
  lemma Utf8Decodes(c: char)
    ensures var u := Utf8(c);
            && u != [] && CodeOf(u[0], u[1..]) == Some(c as int)
            && forall k :: 1 <= k < |u| ==> 0x80 <= u[k] < 0xC0
  {
    hide Continued;
    var x := c as int;
    var y := x / 0x40;
    var z := y / 0x40;
    var r, s, t := 0x80 + x % 0x40, 0x80 + y % 0x40, 0x80 + z % 0x40;
    ContinuedOne(y, r);
    ContinuedTwo(z, s, r);
    ContinuedThree(z / 0x40, t, s, r);
    var u := Utf8(c);
    assert x >= 0x10000 ==> u[1..] == [t, s, r];
    assert 0x800 <= x < 0x10000 ==> u[1..] == [s, r];
    assert 0x80 <= x < 0x800 ==> u[1..] == [r];
  }

  function Utf8Bytes(s: string): seq<int> { if s == "" then [] else Utf8(s[0]) + Utf8Bytes(s[1..]) }

  lemma {:induction false} ByteLenIsUtf8(s: string)
    ensures ByteLen(s) == |Utf8Bytes(s)|
  {
    if s != "" { ByteLenIsUtf8(s[1..]); }
  }

  function TrimLeft(s: string): (r: string)
    ensures |r| <= |s| && (r != "" ==> !IsSpace(r[0]))
  {
    if s != "" && IsSpace(s[0]) then TrimLeft(s[1..]) else s
  }

  function TrimRight(s: string): (r: string)
    ensures |r| <= |s| && (r != "" ==> !IsSpace(r[|r| - 1]))
  {
    if s != "" && IsSpace(s[|s| - 1]) then TrimRight(s[..|s| - 1]) else s
  }

  /** strings.TrimSpace. */
  function Trim(s: string): string { TrimRight(TrimLeft(s)) }

  /** How far the first run of non-space characters reaches. */
  function WordLen(s: string): (n: nat)
    ensures n <= |s| && (forall k :: 0 <= k < n ==> !IsSpace(s[k])) && (n < |s| ==> IsSpace(s[n]))
  {
    if s == "" || IsSpace(s[0]) then 0 else 1 + WordLen(s[1..])
  }

  /** strings.Fields. */
  function Fields(s: string): seq<string>
    decreases |s|
  {
    var t := TrimLeft(s);
    if t == "" then []
    else var n := WordLen(t); [t[..n]] + Fields(t[n..])
  }

  /** strings.Join with a one-character separator. */
  function Join(ss: seq<string>, sep: char): string {
    if ss == [] then "" else if |ss| == 1 then ss[0] else ss[0] + [sep] + Join(ss[1..], sep)
  }

  // ---------------------------------------------------------------- Fields

  ghost predicate Words(ws: seq<string>) { forall k :: 0 <= k < |ws| ==> Word(ws[k]) }

  lemma {:induction false} TrimLeftBlank(u: string, s: string)
    requires Blank(u)
    ensures TrimLeft(u + s) == TrimLeft(s)
  {
    if u == "" {
      assert u + s == s;
    } else {
      assert (u + s)[1..] == u[1..] + s;
      TrimLeftBlank(u[1..], s);
    }
  }

  lemma {:induction false} WordLenOf(w: string, s: string)
    requires forall k :: 0 <= k < |w| ==> !IsSpace(w[k])
    requires s != "" ==> IsSpace(s[0])
    ensures WordLen(w + s) == |w|
  {
    if w == "" {
      assert w + s == s;
    } else {
      assert (w + s)[1..] == w[1..] + s;
      WordLenOf(w[1..], s);
    }
  }

  lemma FieldsBlank(u: string)
    requires Blank(u)
    ensures Fields(u) == []
  {
    TrimLeftBlank(u, "");
    assert u + "" == u;
  }

  lemma FieldsWord(w: string, s: string)
    requires Word(w) && (s != "" ==> IsSpace(s[0]))
    ensures Fields(w + s) == [w] + Fields(s)
  {
    WordLenOf(w, s);
    assert (w + s)[..|w|] == w && (w + s)[|w|..] == s;
    assert TrimLeft(w + s) == w + s;
  }

  lemma FieldsSkip(u: string, s: string)
    requires Blank(u)
    ensures Fields(u + s) == Fields(s)
  {
    TrimLeftBlank(u, s);
  }

  /** Fields are words: nonempty and free of spaces. */
  lemma {:induction false} FieldsAreWords(s: string)
    ensures Words(Fields(s))
    decreases |s|
  {
    var t := TrimLeft(s);
    if t != "" {
      var n := WordLen(t);
      FieldsAreWords(t[n..]);
    }
  }

  lemma {:induction false} Suffix(s: string)
    ensures TrimLeft(s) == s[|s| - |TrimLeft(s)|..] && Blank(s[..|s| - |TrimLeft(s)|])
  {
    if s != "" && IsSpace(s[0]) {
      Suffix(s[1..]);
      var k := |s[1..]| - |TrimLeft(s[1..])|;
      assert s[..|s| - |TrimLeft(s)|] == [s[0]] + s[1..][..k];
    }
  }

  /** Every text is blank, or blank space, a word, and a rest that does not continue the word. */
  lemma Decompose(a: string) returns (pre: string, w: string, rest: string)
    ensures a == pre + (w + rest) && Blank(pre)
    ensures w == "" ==> rest == ""
    ensures w != "" ==> Word(w) && (rest != "" ==> IsSpace(rest[0]))
  {
    var t := TrimLeft(a);
    Suffix(a);
    var n := WordLen(t);
    pre, w, rest := a[..|a| - |t|], t[..n], t[n..];
    assert t == w + rest;
  }

  /** Any run of white space between two texts separates their fields. */
  lemma {:induction false} FieldsSplit(a: string, u: string, b: string)
    requires Blank(u) && u != ""
    ensures Fields(a + (u + b)) == Fields(a) + Fields(b)
    decreases |a|
  {
    hide Fields;
    var pre, w, rest := Decompose(a);
    if w == "" {
      assert a == pre;
      FieldsBlank(a);
      FieldsSkip(a, u + b);
      FieldsSkip(u, b);
    } else {
      var tail := rest + (u + b);
      assert a + (u + b) == pre + (w + tail);
      assert tail != "" && tail[0] == (if rest != "" then rest[0] else u[0]);
      FieldsSkip(pre, w + tail);
      FieldsWord(w, tail);
      FieldsSkip(pre, w + rest);
      FieldsWord(w, rest);
      FieldsSplit(rest, u, b);
    }
  }

  /** `u` separates the words of the texts around it: it is there, or one of the texts ends there or
      has white space there. */
  predicate Separates(a: string, u: string, b: string) {
    u != "" || a == "" || b == "" || IsSpace(a[|a| - 1]) || IsSpace(b[0])
  }

  lemma FieldsSeparated(a: string, u: string, b: string)
    requires Blank(u) && Separates(a, u, b)
    ensures Fields(a + (u + b)) == Fields(a) + Fields(b)
  {
    hide Fields;
    FieldsBlank("");
    if u != "" {
      FieldsSplit(a, u, b);
    } else if a == "" {
      assert a + (u + b) == b;
    } else if b == "" {
      assert a + (u + b) == a;
    } else if IsSpace(a[|a| - 1]) {
      var l, c := a[..|a| - 1], [a[|a| - 1]];
      assert a + (u + b) == l + (c + b) && a == l + (c + "");
      FieldsSplit(l, c, b);
      FieldsSplit(l, c, "");
    } else {
      var c, r := [b[0]], b[1..];
      assert a + (u + b) == a + (c + r) && b == c + r;
      FieldsSplit(a, c, r);
      FieldsSkip(c, r);
    }
  }

  lemma FirstWord(b: string) returns (w: string, rest: string)
    requires b != "" && !IsSpace(b[0])
    ensures b == w + rest && Word(w) && (rest != "" ==> IsSpace(rest[0]))
  {
    w, rest := b[..WordLen(b)], b[WordLen(b)..];
  }

  /** Where nothing separates them, the last word of one text and the first of the next are one. */
  lemma {:induction false} FieldsGlued(a: string, b: string)
    requires !Separates(a, "", b)
    ensures |Fields(a + b)| == |Fields(a)| + |Fields(b)| - 1
    decreases |a|
  {
    hide Fields;
    var pre, w, rest := Decompose(a);
    assert w == "" ==> a == pre;
    assert w != "";
    FieldsSkip(pre, w + rest);
    FieldsSkip(pre, w + (rest + b));
    assert a + b == pre + (w + (rest + b));
    FieldsWord(w, rest);
    if rest != "" {
      assert a[|a| - 1] == rest[|rest| - 1];
      FieldsWord(w, rest + b);
      FieldsGlued(rest, b);
    } else {
      var w', rest' := FirstWord(b);
      assert w + (rest + b) == (w + w') + rest';
      FieldsWord(w', rest');
      FieldsWord(w + w', rest');
      FieldsBlank("");
    }
  }

  lemma {:induction false} TrimRightBlank(s: string, v: string)
    requires Blank(v)
    ensures TrimRight(s + v) == TrimRight(s)
  {
    if v == "" {
      assert s + v == s;
    } else {
      var t := s + v;
      assert t[|t| - 1] == v[|v| - 1] && t[..|t| - 1] == s + v[..|v| - 1];
      TrimRightBlank(s, v[..|v| - 1]);
    }
  }

  lemma {:induction false} TrimLeftThen(s: string, v: string)
    requires TrimLeft(s) != ""
    ensures TrimLeft(s + v) == TrimLeft(s) + v
  {
    if IsSpace(s[0]) {
      assert (s + v)[1..] == s[1..] + v;
      TrimLeftThen(s[1..], v);
    }
  }

  /** Trimming takes off white space around a text, whatever the text is. */
  lemma TrimPadded(u: string, s: string, v: string)
    requires Blank(u) && Blank(v)
    ensures Trim(u + (s + v)) == Trim(s)
  {
    TrimLeftBlank(u, s + v);
    if TrimLeft(s) == "" {
      Suffix(s);
      TrimLeftBlank(s, v);
      TrimLeftBlank(v, "");
      assert v + "" == v;
    } else {
      TrimLeftThen(s, v);
      TrimRightBlank(TrimLeft(s), v);
    }
  }

  /** `c` has no white space at either end. */
  predicate Bare(c: string) { c == "" || (!IsSpace(c[0]) && !IsSpace(c[|c| - 1])) }

  /** `c` is `m` without the white space around it. */
  ghost predicate CoreOf(m: string, c: string) {
    Bare(c) && exists u, v :: Blank(u) && Blank(v) && m == u + (c + v)
  }

  lemma {:induction false} Prefix(s: string)
    ensures TrimRight(s) == s[..|TrimRight(s)|] && Blank(s[|TrimRight(s)|..])
  {
    if s != "" && IsSpace(s[|s| - 1]) {
      var t, k := s[..|s| - 1], |TrimRight(s)|;
      Prefix(t);
      assert s[k..] == t[k..] + [s[|s| - 1]];
    }
  }

  lemma TrimmedIsBare(s: string)
    ensures Bare(Trim(s))
  {
    Prefix(TrimLeft(s));
  }

  lemma BareIsTrimmed(c: string)
    requires Bare(c)
    ensures Trim(c) == c
  {}

  lemma CoreExists(m: string)
    ensures CoreOf(m, Trim(m))
  {
    TrimmedIsBare(m);
    var t := TrimLeft(m);
    Suffix(m);
    Prefix(t);
    hide TrimLeft, TrimRight, Bare;
    var u, v := m[..|m| - |t|], t[|TrimRight(t)|..];
    assert m == u + (TrimRight(t) + v);
  }

  /** Trimming finds the core, and there is only one. */
  lemma TrimIsCore(m: string, c: string)
    ensures CoreOf(m, c) <==> c == Trim(m)
  {
    hide Trim, Bare, Blank;
    CoreExists(m);
    if CoreOf(m, c) {
      var x, y :| Blank(x) && Blank(y) && m == x + (c + y);
      TrimPadded(x, c, y);
      BareIsTrimmed(c);
    }
  }

  /** `f` on every character. */
  function Mapped(f: char -> char, s: string): string { seq(|s|, k requires 0 <= k < |s| => f(s[k])) }

  ghost predicate KeepsSpace(f: char -> char) { forall c :: IsSpace(f(c)) == IsSpace(c) }

  lemma {:induction false} TrimLeftMapped(f: char -> char, s: string)
    requires KeepsSpace(f)
    ensures TrimLeft(Mapped(f, s)) == Mapped(f, TrimLeft(s))
  {
    if s != "" && IsSpace(s[0]) {
      assert Mapped(f, s)[1..] == Mapped(f, s[1..]);
      TrimLeftMapped(f, s[1..]);
    }
  }

  lemma {:induction false} TrimRightMapped(f: char -> char, s: string)
    requires KeepsSpace(f)
    ensures TrimRight(Mapped(f, s)) == Mapped(f, TrimRight(s))
  {
    if s != "" && IsSpace(s[|s| - 1]) {
      assert Mapped(f, s)[..|s| - 1] == Mapped(f, s[..|s| - 1]);
      TrimRightMapped(f, s[..|s| - 1]);
    }
  }

  /** Splitting what was joined gives the words back. */
  lemma {:induction false} FieldsOfJoin(ws: seq<string>)
    requires Words(ws)
    ensures Fields(Join(ws, ' ')) == ws
  {
    hide Fields;
    if ws == [] {
      FieldsBlank("");
    } else if |ws| == 1 {
      assert ws[0] + "" == ws[0];
      FieldsWord(ws[0], "");
      FieldsBlank("");
      assert ws == [ws[0]];
    } else {
      var rest := Join(ws[1..], ' ');
      assert Join(ws, ' ') == ws[0] + ([' '] + rest);
      assert Word(ws[0]);
      FieldsWord(ws[0], [' '] + rest);
      FieldsSkip([' '], rest);
      FieldsOfJoin(ws[1..]);
      assert ws == [ws[0]] + ws[1..];
    }
  }

  // ---------------------------------------------------------------- Join and split on a character

  /** The stretches of `s` between occurrences of `c`; at least one. */
  function SplitOn(s: string, c: char): (r: seq<string>)
    ensures r != []
  {
    if s == "" then [""]
    else
      var rest := SplitOn(s[1..], c);
      if s[0] == c then [""] + rest else [[s[0]] + rest[0]] + rest[1..]
  }

  function Pieces(ss: seq<string>, c: char): seq<string> {
    if ss == [] then [] else SplitOn(ss[0], c) + Pieces(ss[1..], c)
  }

  lemma JoinCons(s: string, rest: seq<string>, c: char)
    requires rest != []
    ensures Join([s] + rest, c) == s + [c] + Join(rest, c)
  {}

  lemma {:induction false} JoinSnoc(ss: seq<string>, s: string, c: char)
    requires ss != []
    ensures Join(ss + [s], c) == Join(ss, c) + [c] + s
  {
    if |ss| > 1 {
      assert (ss + [s])[1..] == ss[1..] + [s];
      JoinSnoc(ss[1..], s, c);
    }
  }

  lemma JoinPrepend(x: char, ss: seq<string>, c: char)
    requires ss != []
    ensures Join([[x] + ss[0]] + ss[1..], c) == [x] + Join(ss, c)
  {}

  lemma {:induction false} JoinOfSplit(s: string, c: char)
    ensures Join(SplitOn(s, c), c) == s
  {
    if s != "" {
      JoinOfSplit(s[1..], c);
      var rest := SplitOn(s[1..], c);
      if s[0] == c { JoinCons("", rest, c); } else { JoinPrepend(s[0], rest, c); }
    }
  }

  /** What a character in front does to a split. */
  function Onto(x: char, c: char, rest: seq<string>): seq<string>
    requires rest != []
  {
    if x == c then [""] + rest else [[x] + rest[0]] + rest[1..]
  }

  lemma SplitCons(x: char, s: string, c: char)
    ensures SplitOn([x] + s, c) == Onto(x, c, SplitOn(s, c))
  {}

  lemma OntoConcat(x: char, c: char, l: seq<string>, r: seq<string>)
    requires l != []
    ensures Onto(x, c, l + r) == Onto(x, c, l) + r
  {}

  lemma {:induction false} SplitOfConcat(s: string, c: char, t: string)
    ensures SplitOn(s + [c] + t, c) == SplitOn(s, c) + SplitOn(t, c)
  {
    if s == "" {
      assert s + [c] + t == [c] + t;
      SplitCons(c, t, c);
    } else {
      assert s == [s[0]] + s[1..];
      assert s + [c] + t == [s[0]] + (s[1..] + [c] + t);
      hide SplitOn;
      SplitCons(s[0], s[1..] + [c] + t, c);
      SplitCons(s[0], s[1..], c);
      SplitOfConcat(s[1..], c, t);
      OntoConcat(s[0], c, SplitOn(s[1..], c), SplitOn(t, c));
    }
  }

  lemma {:induction false} SplitOfJoin(ss: seq<string>, c: char)
    requires ss != []
    ensures SplitOn(Join(ss, c), c) == Pieces(ss, c)
  {
    if |ss| == 1 {
      assert Pieces(ss[1..], c) == [];
    } else {
      SplitOfJoin(ss[1..], c);
      SplitOfConcat(ss[0], c, Join(ss[1..], c));
    }
  }

  /** What a joined list still tells: the stretches between separators, inside elements or not. */
  lemma JoinTellsPieces(ss: seq<string>, ts: seq<string>, c: char)
    requires ss != [] && ts != []
    ensures Join(ss, c) == Join(ts, c) <==> Pieces(ss, c) == Pieces(ts, c)
  {
    SplitOfJoin(ss, c);
    SplitOfJoin(ts, c);
    JoinOfSplit(Join(ss, c), c);
    JoinOfSplit(Join(ts, c), c);
  }

  ghost predicate Free(ss: seq<string>, c: char) { forall k :: 0 <= k < |ss| ==> c !in ss[k] }

  lemma {:induction false} SplitFree(s: string, c: char)
    requires c !in s
    ensures SplitOn(s, c) == [s]
  {
    if s != "" {
      SplitFree(s[1..], c);
      assert s == [s[0]] + s[1..];
    }
  }

  lemma {:induction false} PiecesFree(ss: seq<string>, c: char)
    requires Free(ss, c)
    ensures Pieces(ss, c) == ss
  {
    if ss != [] {
      SplitFree(ss[0], c);
      PiecesFree(ss[1..], c);
      assert ss == [ss[0]] + ss[1..];
    }
  }

  // ---------------------------------------------------------------- decimals and length prefixes

  const DIGITS := "0123456789"

  function Decimal(n: nat): (s: string)
    ensures s != "" && forall k :: 0 <= k < |s| ==> '0' <= s[k] <= '9'
  {
    if n < 10 then [DIGITS[n]] else Decimal(n / 10) + [DIGITS[n % 10]]
  }

  /** strconv.Itoa. */
  function Itoa(i: int): string { if i < 0 then "-" + Decimal(-i) else Decimal(i) }

  function DigitValue(c: char): int { c as int - '0' as int }

  function Value(s: string): int {
    if s == "" then 0 else 10 * Value(s[..|s| - 1]) + DigitValue(s[|s| - 1])
  }

  lemma ValueSnoc(s: string, d: nat)
    requires d < 10
    ensures Value(s + [DIGITS[d]]) == 10 * Value(s) + d
  {}

  lemma {:induction false} ValueOfDecimal(n: nat)
    ensures Value(Decimal(n)) == n
  {
    if n < 10 {
      ValueSnoc("", n);
      assert "" + [DIGITS[n]] == Decimal(n);
    } else {
      ValueOfDecimal(n / 10);
      ValueSnoc(Decimal(n / 10), n % 10);
    }
  }

  lemma ItoaInjective(i: int, j: int)
    ensures Itoa(i) == Itoa(j) <==> i == j
  {
    var m, n := if i < 0 then -i else i, if j < 0 then -j else j;
    ValueOfDecimal(m);
    ValueOfDecimal(n);
    assert Itoa(i)[0] == '-' <==> i < 0;
    assert Itoa(j)[0] == '-' <==> j < 0;
    assert i < 0 ==> Itoa(i)[1..] == Decimal(m);
    assert j < 0 ==> Itoa(j)[1..] == Decimal(n);
  }

  /** One field of the digest input: its length in bytes, a colon, the field, a bar. */
  function Prefixed(p: string): string { Decimal(ByteLen(p)) + ":" + p + "|" }

  function Encode(parts: seq<string>): string {
    if parts == [] then "" else Prefixed(parts[0]) + Encode(parts[1..])
  }

  lemma {:induction false} EncodeAppend(a: seq<string>, b: seq<string>)
    ensures Encode(a + b) == Encode(a) + Encode(b)
  {
    if a == [] {
      assert a + b == b;
    } else {
      assert (a + b)[1..] == a[1..] + b;
      EncodeAppend(a[1..], b);
      assert Prefixed(a[0]) + (Encode(a[1..]) + Encode(b)) == Prefixed(a[0]) + Encode(a[1..]) + Encode(b);
    }
  }

  lemma {:induction false} ByteLenAppend(a: string, b: string)
    ensures ByteLen(a + b) == ByteLen(a) + ByteLen(b)
  {
    if a == "" {
      assert a + b == b;
    } else {
      assert (a + b)[1..] == a[1..] + b;
      ByteLenAppend(a[1..], b);
    }
  }

  lemma Ends(p: string, x: string)
    ensures (p + x)[..|p|] == p && (p + x)[|p|..] == x
  {}

  /** Two beginnings of the same text with the same number of bytes are the same. */
  lemma SameBytesSamePrefix(p: string, x: string, q: string, y: string)
    requires p + x == q + y && ByteLen(p) == ByteLen(q)
    ensures p == q && x == y
  {
    var t := p + x;
    Ends(p, x);
    Ends(q, y);
    if |p| <= |q| {
      assert q == p + t[|p|..|q|];
      ByteLenAppend(p, t[|p|..|q|]);
    } else {
      assert p == q + t[|q|..|p|];
      ByteLenAppend(q, t[|q|..|p|]);
    }
  }

  /** The first colon ends the length. */
  lemma FirstColon(d: string, x: string, e: string, y: string)
    requires d + ":" + x == e + ":" + y && ':' !in d && ':' !in e
    ensures d == e && x == y
  {
    var t := d + ":" + x;
    assert t[|d|] == ':' && t[|e|] == ':';
    assert forall k :: 0 <= k < |d| ==> t[k] == d[k];
    assert forall k :: 0 <= k < |e| ==> t[k] == e[k];
    assert |d| == |e|;
    assert d == t[..|d|] && e == t[..|e|] && x == t[|d| + 1..] && y == t[|e| + 1..];
  }

  lemma OneField(p: string, x: string, q: string, y: string)
    requires Prefixed(p) + x == Prefixed(q) + y
    ensures p == q && x == y
  {
    var m, n := ByteLen(p), ByteLen(q);
    assert Prefixed(p) + x == Decimal(m) + ":" + (p + ("|" + x));
    assert Prefixed(q) + y == Decimal(n) + ":" + (q + ("|" + y));
    FirstColon(Decimal(m), p + ("|" + x), Decimal(n), q + ("|" + y));
    ValueOfDecimal(m);
    ValueOfDecimal(n);
    SameBytesSamePrefix(p, "|" + x, q, "|" + y);
    assert ("|" + x)[1..] == x && ("|" + y)[1..] == y;
  }

  lemma EncodeStep(a: seq<string>)
    ensures Encode(a) == "" <==> a == []
    ensures a != [] ==> Encode(a) == Prefixed(a[0]) + Encode(a[1..])
  {}

  /** The length-prefixed text determines its fields. */
  lemma {:induction false} EncodeInjective(a: seq<string>, b: seq<string>)
    ensures Encode(a) == Encode(b) <==> a == b
  {
    hide Encode, Prefixed;
    EncodeStep(a);
    EncodeStep(b);
    if a != [] && b != [] && Encode(a) == Encode(b) {
      OneField(a[0], Encode(a[1..]), b[0], Encode(b[1..]));
      EncodeInjective(a[1..], b[1..]);
      assert a == [a[0]] + a[1..] && b == [b[0]] + b[1..];
    }
  }
}
