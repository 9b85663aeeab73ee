/** Text helpers the components share, with the meaning Rust gives them. */
module Text {
  import opened Wrappers
  import opened Lines

  /** The Unicode White_Space property. */
  predicate IsWhitespace(c: char) {
    || '\t' <= c <= '\r' || c == ' '
    || c in {'\U{0085}', '\U{00A0}', '\U{1680}', '\U{2028}', '\U{2029}', '\U{202F}', '\U{205F}', '\U{3000}'}
    || '\U{2000}' <= c <= '\U{200A}'
  }

  /** The code points that have the property, one by one. */
  lemma WhitespaceExactly(c: char)
    ensures IsWhitespace(c) <==>
            c as int in {0x9, 0xA, 0xB, 0xC, 0xD, 0x20, 0x85, 0xA0, 0x1680, 0x2000, 0x2001, 0x2002, 0x2003, 0x2004, 0x2005,
                         0x2006, 0x2007, 0x2008, 0x2009, 0x200A, 0x2028, 0x2029, 0x202F, 0x205F, 0x3000}
  {
  }

  predicate IsBlank(s: string) { forall c | c in s :: IsWhitespace(c) }

  function Utf8Len(c: char): nat {
    if c as int < 0x80 then 1 else if c as int < 0x800 then 2 else if c as int < 0x10000 then 3 else 4
  }

  function ByteLen(s: string): nat {
    if s == [] then 0 else ByteLen(s[..|s| - 1]) + Utf8Len(s[|s| - 1])
  }

  /** A character in UTF-8, by section 3 of RFC 3629. */
  function Utf8(c: char): (b: Bytes)
    ensures b != []
  {
    var n := c as int;
    if n < 0x80 then [n]
    else if n < 0x800 then [0xC0 + n / 0x40, 0x80 + n % 0x40]
    else if n < 0x1_0000 then [0xE0 + n / 0x1000, 0x80 + n / 0x40 % 0x40, 0x80 + n % 0x40]
    else [0xF0 + n / 0x4_0000, 0x80 + n / 0x1000 % 0x40, 0x80 + n / 0x40 % 0x40, 0x80 + n % 0x40]
  }

  function Encoded(s: string): Bytes {
    if s == [] then [] else Encoded(s[..|s| - 1]) + Utf8(s[|s| - 1])
  }

  /** The length counted is that of the encoded text. */
  lemma {:induction false} ByteLenIsEncoded(s: string)
    ensures ByteLen(s) == |Encoded(s)|
  {
    if s != [] {
      ByteLenIsEncoded(s[..|s| - 1]);
    }
  }

  predicate IsAlphanumeric(c: char) { '0' <= c <= '9' || 'A' <= c <= 'Z' || 'a' <= c <= 'z' }

  /** Two texts cut at their first separator have equal halves. */
  lemma SameCut(a: string, x: string, b: string, y: string, sep: char)
    requires sep !in a && sep !in b && a + [sep] + x == b + [sep] + y
    ensures a == b && x == y
  {
    var s := a + [sep] + x;
    assert s[|a|] == sep && s[|b|] == sep;
    assert s[..|a|] == a && s[..|b|] == b;
    assert s[|a| + 1..] == x && s[|b| + 1..] == y;
  }

  /** Two texts cut at their last separator have equal halves. */
  lemma SameLastCut(a: string, x: string, b: string, y: string, sep: char)
    requires sep !in x && sep !in y && a + [sep] + x == b + [sep] + y
    ensures a == b && x == y
  {
    var s := a + [sep] + x;
    assert s[|a|] == sep && s[|b|] == sep;
    assert s[|a| + 1..] == x && s[|b| + 1..] == y;
    assert s[..|a|] == a && s[..|b|] == b;
  }

  /** `parts.join(sep)` */
  function Join(parts: seq<string>, sep: char): string {
    if parts == [] then ""
    else if |parts| == 1 then parts[0]
    else parts[0] + [sep] + Join(parts[1..], sep)
  }

  lemma SeparatorShows(parts: seq<string>, sep: char)
    requires parts != [] && forall p | p in parts :: sep !in p
    ensures sep in Join(parts, sep) <==> |parts| > 1
  {
    assert parts[0] in parts;
    if |parts| > 1 {
      assert Join(parts, sep)[|parts[0]|] == sep;
    }
  }

  lemma {:induction false} JoinInjective(a: seq<string>, b: seq<string>, sep: char)
    requires a != [] && b != []
    requires (forall p | p in a :: sep !in p) && (forall p | p in b :: sep !in p)
    requires Join(a, sep) == Join(b, sep)
    ensures a == b
  {
    SeparatorShows(a, sep);
    SeparatorShows(b, sep);
    assert a[0] in a && b[0] in b;
    assert a == [a[0]] + a[1..] && b == [b[0]] + b[1..];
    if |a| > 1 {
      SameCut(a[0], Join(a[1..], sep), b[0], Join(b[1..], sep), sep);
      JoinInjective(a[1..], b[1..], sep);
    }
  }

  function TrimStart(s: string): string {
    if s != "" && IsWhitespace(s[0]) then TrimStart(s[1..]) else s
  }

  function TrimEnd(s: string): string {
    if s != "" && IsWhitespace(s[|s| - 1]) then TrimEnd(s[..|s| - 1]) else s
  }

  /** `s.trim()` */
  function Trim(s: string): string { TrimEnd(TrimStart(s)) }

  lemma {:induction false} TrimStartEnds(s: string)
    ensures var r := TrimStart(s); r != "" ==> !IsWhitespace(r[0]) && s != "" && r[|r| - 1] == s[|s| - 1]
    ensures |TrimStart(s)| <= |s| && TrimStart(s) == s[|s| - |TrimStart(s)|..]
  {
    hide IsWhitespace;
    if s != "" && IsWhitespace(s[0]) {
      TrimStartEnds(s[1..]);
    }
  }

  lemma {:induction false} TrimEndEnds(s: string)
    ensures var r := TrimEnd(s); r != "" ==> !IsWhitespace(r[|r| - 1]) && s != "" && r[0] == s[0]
    ensures |TrimEnd(s)| <= |s| && TrimEnd(s) == s[..|TrimEnd(s)|]
  {
    hide IsWhitespace;
    if s != "" && IsWhitespace(s[|s| - 1]) {
      TrimEndEnds(s[..|s| - 1]);
    }
  }

  /** A trimmed text is one that does not start or end with white space. */
  predicate IsTrimmed(s: string) { s == "" || (!IsWhitespace(s[0]) && !IsWhitespace(s[|s| - 1])) }

  lemma TrimIsTrimmed(s: string)
    ensures IsTrimmed(Trim(s))
    ensures forall c | c in Trim(s) :: c in s
    ensures IsTrimmed(s) ==> Trim(s) == s
  {
    hide IsWhitespace, TrimStart, TrimEnd;
    if IsTrimmed(s) {
      TrimmedStays(s);
    }
    var front := TrimStart(s);
    TrimStartEnds(s);
    TrimEndEnds(front);
    forall c | c in Trim(s) ensures c in s {
      var i :| 0 <= i < |TrimEnd(front)| && TrimEnd(front)[i] == c;
      assert front[i] == c && s[|s| - |front| + i] == c;
    }
  }

  lemma TrimmedStays(s: string)
    requires IsTrimmed(s)
    ensures Trim(s) == s
  {
    hide IsWhitespace;
  }

  lemma {:induction false} TrimStartCuts(s: string) returns (a: string)
    ensures s == a + TrimStart(s) && IsBlank(a)
  {
    hide IsWhitespace;
    if s != "" && IsWhitespace(s[0]) {
      a := TrimStartCuts(s[1..]);
      a := [s[0]] + a;
    } else {
      a := "";
    }
  }

  lemma {:induction false} TrimEndCuts(s: string) returns (b: string)
    ensures s == TrimEnd(s) + b && IsBlank(b)
  {
    hide IsWhitespace;
    if s != "" && IsWhitespace(s[|s| - 1]) {
      b := TrimEndCuts(s[..|s| - 1]);
      b := b + [s[|s| - 1]];
    } else {
      b := "";
    }
  }

  /** Trimming cuts off white space at both ends, and nothing else. */
  lemma TrimExactly(s: string) returns (a: string, b: string)
    ensures s == a + Trim(s) + b && IsBlank(a) && IsBlank(b) && IsTrimmed(Trim(s))
  {
    hide IsBlank, TrimStart, TrimEnd, IsWhitespace, IsTrimmed;
    a := TrimStartCuts(s);
    b := TrimEndCuts(TrimStart(s));
    TrimIsTrimmed(s);
    assert s == a + (Trim(s) + b);
  }

  lemma {:induction false} TrimStartSkips(a: string, s: string)
    requires IsBlank(a)
    ensures TrimStart(a + s) == TrimStart(s)
  {
    hide IsWhitespace;
    if a == "" {
      assert a + s == s;
    } else {
      assert (a + s)[1..] == a[1..] + s;
      TrimStartSkips(a[1..], s);
    }
  }

  lemma {:induction false} TrimEndSkips(s: string, b: string)
    requires IsBlank(b)
    ensures TrimEnd(s + b) == TrimEnd(s)
  {
    hide IsWhitespace;
    if b == "" {
      assert s + b == s;
    } else {
      assert (s + b)[..|s| + |b| - 1] == s + b[..|b| - 1];
      TrimEndSkips(s, b[..|b| - 1]);
    }
  }

  /** What is trimmed already is found under any white space around it. */
  lemma TrimUnique(a: string, x: string, b: string)
    requires IsBlank(a) && IsBlank(b) && IsTrimmed(x)
    ensures Trim(a + x + b) == x
  {
    hide IsWhitespace;
    assert a + x + b == a + (x + b);
    TrimStartSkips(a, x + b);
    if x == "" {
      assert x + b == b + "";
      TrimStartSkips(b, "");
    } else {
      assert TrimStart(x + b) == x + b;
      TrimEndSkips(x, b);
    }
  }

  function IndexOf(s: string, c: char): (i: Option<nat>)
    ensures i.Some? ==> i.value < |s| && s[i.value] == c && c !in s[..i.value]
    ensures i.None? ==> c !in s
  {
    if s == "" then None
    else if s[0] == c then Some(0)
    else
      var i := IndexOf(s[1..], c);
      assert i.Some? ==> s[..i.value + 1] == [s[0]] + s[1..][..i.value];
      assert s == [s[0]] + s[1..];
      if i.Some? then Some(i.value + 1) else None
  }

  /** The first separator is where it is shown to be. */
  lemma {:induction false} IndexOfCut(a: string, c: char, b: string)
    requires c !in a
    ensures IndexOf(a + [c] + b, c) == Some(|a|)
  {
    var s := a + [c] + b;
    if a != "" {
      assert s[0] == a[0] && a[0] in a;
      assert s[1..] == a[1..] + [c] + b;
      IndexOfCut(a[1..], c, b);
    }
  }

  function CountOf(s: string, c: char): nat {
    if s == "" then 0 else (if s[0] == c then 1 else 0) + CountOf(s[1..], c)
  }

  lemma {:induction false} CountConcat(a: string, b: string, c: char)
    ensures CountOf(a + b, c) == CountOf(a, c) + CountOf(b, c)
  {
    if a == "" {
      assert a + b == b;
    } else {
      assert (a + b)[1..] == a[1..] + b;
      CountConcat(a[1..], b, c);
    }
  }

  lemma {:induction false} CountShows(s: string, c: char)
    ensures CountOf(s, c) == 0 <==> c !in s
  {
    if s != "" {
      CountShows(s[1..], c);
      assert s == [s[0]] + s[1..];
    }
  }

  function TotalOf(parts: seq<string>, c: char): nat {
    if parts == [] then 0 else CountOf(parts[0], c) + TotalOf(parts[1..], c)
  }

  lemma {:induction false} JoinCount(parts: seq<string>, sep: char)
    requires parts != []
    ensures CountOf(Join(parts, sep), sep) == |parts| - 1 + TotalOf(parts, sep)
  {
    if |parts| == 1 {
      assert TotalOf(parts[1..], sep) == 0;
    } else {
      JoinCount(parts[1..], sep);
      var rest := Join(parts[1..], sep);
      CountConcat(parts[0] + [sep], rest, sep);
      CountConcat(parts[0], [sep], sep);
      assert [sep][1..] == "";
    }
  }

  lemma {:induction false} NoneCounted(parts: seq<string>, c: char)
    requires forall p | p in parts :: c !in p
    ensures TotalOf(parts, c) == 0
  {
    if parts != [] {
      assert parts[0] in parts && forall p | p in parts[1..] :: p in parts;
      CountShows(parts[0], c);
      NoneCounted(parts[1..], c);
    }
  }

  lemma {:induction false} SomeCounted(parts: seq<string>, i: nat, c: char)
    requires i < |parts| && c in parts[i]
    ensures TotalOf(parts, c) >= 1
  {
    CountShows(parts[0], c);
    if i > 0 {
      SomeCounted(parts[1..], i - 1, c);
    }
  }
}
