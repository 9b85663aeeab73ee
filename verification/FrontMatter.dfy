/**
 The file format of saved entries: a header of quoted fields between `---` lines,
 then the text.
 */
module FrontMatter {
  import opened Wrappers
  import opened Text

  datatype Field = Field(key: string, value: string)

  /******* Reading *******/

  const OPENING := "---\n"
  const CLOSING := "\n---"

  predicate StartsWith(s: string, prefix: string) { prefix <= s }

  /** `s.find("\n---")` */
  function FindClosing(s: string): (i: Option<nat>)
    ensures i.Some? ==> i.value + 4 <= |s|
  {
    if StartsWith(s, CLOSING) then Some(0)
    else if s == "" then None
    else
      var i := FindClosing(s[1..]);
      if i.Some? then Some(i.value + 1) else None
  }

  function StripCr(line: string): string {
    if line != "" && line[|line| - 1] == '\r' then line[..|line| - 1] else line
  }

  /** `s.lines()` */
  function SplitLines(s: string): seq<string>
    decreases |s|
  {
    if s == "" then []
    else match IndexOf(s, '\n')
      case None => [s]
      case Some(i) => [StripCr(s[..i])] + SplitLines(s[i + 1..])
  }

  /** `s.replace("\\\"", "\"")` */
  function Unescape(s: string): string
    decreases |s|
  {
    if s == "" then ""
    else if StartsWith(s, "\\\"") then "\"" + Unescape(s[2..])
    else [s[0]] + Unescape(s[1..])
  }

  predicate Quoted(s: string, quote: char) { |s| >= 2 && s[0] == quote && s[|s| - 1] == quote }

  function Unquote(raw: string): string {
    var s := Trim(raw);
    if Quoted(s, '"') || Quoted(s, '\'') then Unescape(s[1..|s| - 1]) else s
  }

  /** The field on a header line, if it has the form of one. */
  function FieldOf(line: string): Option<Field> {
    var s := Trim(line);
    match IndexOf(s, ':')
    case None => None
    case Some(i) => Some(Field(Trim(s[..i]), Unquote(Trim(s[i + 1..]))))
  }

  function FieldsOf(lines: seq<string>): seq<Field> {
    if lines == [] then []
    else
      var field := FieldOf(lines[|lines| - 1]);
      FieldsOf(lines[..|lines| - 1]) + if field.Some? then [field.value] else []
  }

  function TrimNewlines(s: string): (r: string)
    ensures r == "" || r[0] != '\n'
    ensures s == r <==> s == "" || s[0] != '\n'
    ensures |r| <= |s|
  {
    if s != "" && s[0] == '\n' then TrimNewlines(s[1..]) else s
  }

  datatype Parsed = Parsed(lines: seq<string>, text: string)

  /** The header lines of a file and the text after them; without a header all of it is text. */
  function ParseFile(raw: string): Parsed {
    if !StartsWith(raw, OPENING) then Parsed([], TrimNewlines(raw))
    else match FindClosing(raw[4..])
      case None => Parsed([], TrimNewlines(raw))
      case Some(end) => Parsed(SplitLines(raw[4..][..end]), TrimNewlines(raw[4 + end + 4..]))
  }

  /** The value of a field: the last line wins. */
  function Last(fields: seq<Field>, key: string): Option<string> {
    if fields == [] then None
    else if fields[|fields| - 1].key == key then Some(fields[|fields| - 1].value)
    else Last(fields[..|fields| - 1], key)
  }

  /******* Writing *******/

  /** A header line; `value` is escaped already. */
  function FieldLine(f: Field): string { f.key + ": \"" + f.value + "\"" }

  function Header(fields: seq<Field>): string {
    if fields == [] then "" else FieldLine(fields[0]) + "\n" + Header(fields[1..])
  }

  function RenderFile(fields: seq<Field>, text: string): string {
    OPENING + Header(fields) + "---\n" + TrimNewlines(text)
  }

  /******* What is read back *******/

  /** Field names as the writers use them. */
  predicate PlainKey(key: string) { key != "" && forall c | c in key :: 'a' <= c <= 'z' || c == '_' }

  /** Every `"` is escaped by a backslash before it. */
  predicate Writable(f: Field) { PlainKey(f.key) && '\n' !in f.value }

  lemma LineOfField(f: Field)
    requires Writable(f)
    ensures Solid(FieldLine(f))
    ensures FieldOf(FieldLine(f)) == Some(Field(f.key, Unescape(f.value)))
  {
    hide Unescape, TrimStart, TrimEnd, Unquote;
    var line := FieldLine(f);
    var rest := " \"" + f.value + "\"";
    assert line == f.key + [':'] + rest;
    KeyIsTrimmed(f.key);
    assert line[0] == f.key[0] && line[|line| - 1] == '"';
    TrimIsTrimmed(line);
    IndexOfCut(f.key, ':', rest);
    assert line[..|f.key|] == f.key && line[|f.key| + 1..] == rest;
    TrimIsTrimmed(f.key);
    QuotedValue(f.value);
  }

  lemma KeyIsTrimmed(key: string)
    requires PlainKey(key)
    ensures IsTrimmed(key) && ':' !in key && '\n' !in key && !IsWhitespace(key[0]) && key[0] != '-'
  {
    assert key[0] in key && key[|key| - 1] in key;
  }

  lemma QuotedValue(value: string)
    ensures Unquote(Trim(" \"" + value + "\"")) == Unescape(value)
  {
    hide Unescape;
    var s, q := " \"" + value + "\"", "\"" + value + "\"";
    assert s[1..] == q && TrimStart(s) == TrimStart(q) && TrimStart(q) == q;
    TrimIsTrimmed(q);
    assert q[1..|q| - 1] == value;
  }

  /** A line that can neither be split nor be taken for the end of the header. */
  predicate Solid(line: string) {
    line != "" && '\n' !in line && line[0] != '-' && line[|line| - 1] != '\r'
  }

  lemma {:induction false} SplitJoined(lines: seq<string>)
    requires lines != [] && forall line | line in lines :: Solid(line)
    ensures SplitLines(Join(lines, '\n')) == lines
  {
    hide StripCr;
    assert lines[0] in lines;
    if |lines| == 1 {
      SplitOne(lines[0]);
      assert [lines[0]] == lines;
    } else {
      SplitJoined(lines[1..]);
      SplitFirst(lines[0], Join(lines[1..], '\n'));
      assert [lines[0]] + lines[1..] == lines;
    }
  }

  lemma SplitOne(line: string)
    requires Solid(line)
    ensures SplitLines(line) == [line]
  {
  }

  lemma SplitFirst(line: string, more: string)
    requires Solid(line)
    ensures SplitLines(line + ['\n'] + more) == [line] + SplitLines(more)
  {
    hide TrimStart, TrimEnd;
    var s := line + ['\n'] + more;
    IndexOfCut(line, '\n', more);
    assert s[..|line|] == line && s[|line| + 1..] == more;
    assert StripCr(line) == line;
  }

  /** A newline inside the header is never followed by a dash. */
  predicate NoClosing(s: string) {
    forall i | 0 <= i < |s| && s[i] == '\n' :: i + 1 < |s| && s[i + 1] != '-'
  }

  lemma {:induction false} ClosingAfter(s: string, rest: string)
    requires NoClosing(s)
    ensures FindClosing(s + (CLOSING + rest)) == Some(|s|)
  {
    var all := s + (CLOSING + rest);
    if s == "" {
      assert all == CLOSING + rest;
    } else {
      assert all[1..] == s[1..] + (CLOSING + rest);
      ClosingAfter(s[1..], rest);
      assert s[0] == all[0] && (|s| > 1 ==> s[1] == all[1]);
      assert CLOSING[0] == '\n' && CLOSING[1] == '-';
    }
  }

  lemma {:induction false} JoinedHasNoClosing(lines: seq<string>)
    requires lines != [] && forall line | line in lines :: Solid(line)
    ensures NoClosing(Join(lines, '\n'))
    ensures Join(lines, '\n') != "" && Join(lines, '\n')[0] != '-'
  {
    assert lines[0] in lines;
    var line := lines[0];
    if |lines| == 1 {
      assert forall i | 0 <= i < |line| :: line[i] in line;
    } else {
      var more := Join(lines[1..], '\n');
      JoinedHasNoClosing(lines[1..]);
      NoClosingJoined(line, more);
    }
  }

  lemma NoClosingJoined(line: string, more: string)
    requires '\n' !in line && NoClosing(more) && more != "" && more[0] != '-'
    ensures NoClosing(line + ['\n'] + more)
  {
    var all := line + ['\n'] + more;
    forall i | 0 <= i < |all| && all[i] == '\n' ensures i + 1 < |all| && all[i + 1] != '-' {
      assert forall j | 0 <= j < |line| :: all[j] == line[j] && line[j] in line;
      if i > |line| {
        var k := i - |line| - 1;
        assert all[i] == more[k];
        assert more[k + 1] == all[i + 1];
      }
    }
  }

  function FieldLines(fields: seq<Field>): (r: seq<string>)
    ensures |r| == |fields|
  {
    seq(|fields|, i requires 0 <= i < |fields| => FieldLine(fields[i]))
  }

  lemma {:induction false} HeaderIsJoined(fields: seq<Field>)
    requires fields != []
    ensures Header(fields) == Join(FieldLines(fields), '\n') + "\n"
  {
    hide FieldLine;
    assert FieldLines(fields)[1..] == FieldLines(fields[1..]);
    if |fields| == 1 {
      assert Header(fields[1..]) == "";
    } else {
      HeaderIsJoined(fields[1..]);
    }
  }

  function Unescaped(fields: seq<Field>): (r: seq<Field>)
    ensures |r| == |fields|
  {
    seq(|fields|, i requires 0 <= i < |fields| => Field(fields[i].key, Unescape(fields[i].value)))
  }

  lemma {:induction false} FieldsOfLines(lines: seq<string>, fields: seq<Field>)
    requires |lines| == |fields| && forall i | 0 <= i < |lines| :: FieldOf(lines[i]) == Some(fields[i])
    ensures FieldsOf(lines) == fields
  {
    hide FieldOf;
    if lines != [] {
      FieldsOfLines(lines[..|lines| - 1], fields[..|fields| - 1]);
      assert fields == fields[..|fields| - 1] + [fields[|fields| - 1]];
    }
  }

  /** What is written comes back, up to the escaping of values and newlines before the text. */
  lemma ReadBack(fields: seq<Field>, text: string)
    requires fields != [] && forall f | f in fields :: Writable(f)
    ensures ParseFile(RenderFile(fields, text)).text == TrimNewlines(text)
    ensures FieldsOf(ParseFile(RenderFile(fields, text)).lines) == Unescaped(fields)
  {
    hide FieldLine, Writable, FieldOf, FieldsOf, Header, FindClosing, SplitLines, NoClosing, TrimNewlines, Solid, Join;
    var raw, lines := RenderFile(fields, text), FieldLines(fields);
    var head := Join(lines, '\n');
    HeaderIsJoined(fields);
    forall i | 0 <= i < |fields| ensures Solid(lines[i]) && FieldOf(lines[i]) == Some(Unescaped(fields)[i]) {
      assert fields[i] in fields;
      LineOfField(fields[i]);
    }
    SplitJoined(lines);
    JoinedHasNoClosing(lines);
    var body := "\n" + TrimNewlines(text);
    assert raw == OPENING + (head + (CLOSING + body));
    ClosingAfter(head, body);
    assert raw[4..] == head + (CLOSING + body);
    assert raw[4..][..|head|] == head && raw[4 + |head| + 4..] == body;
    NewlineThenText(text);
    FieldsOfLines(lines, Unescaped(fields));
  }

  lemma NewlineThenText(text: string)
    ensures TrimNewlines("\n" + TrimNewlines(text)) == TrimNewlines(text)
  {
    assert ("\n" + TrimNewlines(text))[1..] == TrimNewlines(text);
  }

  /******* What never comes back *******/

  lemma {:induction false} NoNewlineInLines(s: string)
    ensures forall line | line in SplitLines(s) :: '\n' !in line
    decreases |s|
  {
    if s != "" {
      var i := IndexOf(s, '\n');
      if i.Some? {
        NoNewlineInLines(s[i.value + 1..]);
      }
    }
  }

  lemma {:induction false} UnescapeKeeps(s: string)
    ensures forall c | c in Unescape(s) :: c in s
    ensures |Unescape(s)| <= |s|
    decreases |s|
  {
    if s != "" {
      if StartsWith(s, "\\\"") {
        UnescapeKeeps(s[2..]);
        assert s[1] == '"';
      } else {
        UnescapeKeeps(s[1..]);
      }
    }
  }

  lemma FieldHasNoNewline(line: string)
    requires '\n' !in line
    ensures FieldOf(line).Some? ==> '\n' !in FieldOf(line).value.value
  {
    hide Unescape, TrimStart, TrimEnd;
    var s := Trim(line);
    TrimIsTrimmed(line);
    var i := IndexOf(s, ':');
    if i.Some? {
      var v := s[i.value + 1..];
      TrimIsTrimmed(v);
      TrimIsTrimmed(Trim(v));
      var t := Trim(Trim(v));
      TrimIsTrimmed(s[..i.value]);
      assert '\n' !in v && '\n' !in t;
      if Quoted(t, '"') || Quoted(t, '\'') {
        UnescapeKeeps(t[1..|t| - 1]);
        assert '\n' !in t[1..|t| - 1];
      }
      assert Unquote(Trim(v)) == if Quoted(t, '"') || Quoted(t, '\'') then Unescape(t[1..|t| - 1]) else t;
    }
  }

  /** No value read from a header holds a newline, and no text read starts with one. */
  lemma ReadHasNoNewline(raw: string)
    ensures forall f | f in FieldsOf(ParseFile(raw).lines) :: '\n' !in f.value
    ensures var text := ParseFile(raw).text; text == "" || text[0] != '\n'
  {
    hide FieldOf, SplitLines, FieldsOf, FindClosing;
    var lines := ParseFile(raw).lines;
    forall line | line in lines ensures '\n' !in line {
      if StartsWith(raw, OPENING) && FindClosing(raw[4..]).Some? {
        NoNewlineInLines(raw[4..][..FindClosing(raw[4..]).value]);
      }
    }
    FieldsHaveNoNewline(lines);
  }

  lemma {:induction false} FieldsHaveNoNewline(lines: seq<string>)
    requires forall line | line in lines :: '\n' !in line
    ensures forall f | f in FieldsOf(lines) :: '\n' !in f.value
  {
    hide FieldOf;
    if lines != [] {
      assert lines[|lines| - 1] in lines;
      FieldHasNoNewline(lines[|lines| - 1]);
      FieldsHaveNoNewline(lines[..|lines| - 1]);
    }
  }

  lemma {:induction false} LastIsAField(fields: seq<Field>, key: string)
    ensures Last(fields, key).Some? ==> Field(key, Last(fields, key).value) in fields
  {
    if fields != [] && fields[|fields| - 1].key != key {
      LastIsAField(fields[..|fields| - 1], key);
    }
  }

  /******* Escaping *******/

  /** `s.replace('"', "\\\"")` */
  function EscapeQuotes(s: string): string {
    if s == "" then "" else (if s[0] == '"' then "\\\"" else [s[0]]) + EscapeQuotes(s[1..])
  }

  /** `s.replace('\\', "\\\\")` */
  function DoubleBackslashes(s: string): string {
    if s == "" then "" else (if s[0] == '\\' then "\\\\" else [s[0]]) + DoubleBackslashes(s[1..])
  }

  /** Unescaping undoes the escaping of quotes, for every text. */
  lemma {:induction false} UnescapeEscape(s: string)
    ensures Unescape(EscapeQuotes(s)) == s
  {
    if s != "" {
      UnescapeEscape(s[1..]);
      var rest := EscapeQuotes(s[1..]);
      if s[0] == '"' {
        assert EscapeQuotes(s) == "\\\"" + rest && ("\\\"" + rest)[2..] == rest;
        assert "\"" + s[1..] == s;
      } else {
        assert EscapeQuotes(s) == [s[0]] + rest && ([s[0]] + rest)[1..] == rest;
        if s[0] == '\\' {
          NeverABareQuote(s[1..]);
        }
        assert [s[0]] + s[1..] == s;
      }
    }
  }

  lemma NeverABareQuote(s: string)
    ensures EscapeQuotes(s) == "" || EscapeQuotes(s)[0] != '"'
  {
  }

  lemma {:induction false} DoubledLength(s: string)
    ensures |DoubleBackslashes(s)| == |s| + CountOf(s, '\\')
    ensures CountOf(s, '\\') == 0 <==> '\\' !in s
    ensures '\\' !in s ==> DoubleBackslashes(s) == s
    ensures '\n' in DoubleBackslashes(s) <==> '\n' in s
  {
    if s != "" {
      DoubledLength(s[1..]);
      assert s == [s[0]] + s[1..];
    }
  }

  lemma {:induction false} EscapeKeepsNewlines(s: string)
    ensures '\n' in EscapeQuotes(s) <==> '\n' in s
  {
    if s != "" {
      EscapeKeepsNewlines(s[1..]);
      assert s == [s[0]] + s[1..];
    }
  }

  /******* Reading a header line by line *******/

  lemma NoFields(lines: seq<string>)
    ensures FieldsOf(lines[..0]) == []
    ensures forall key :: Last([], key) == None
  {
  }

  lemma FieldsNext(lines: seq<string>, i: nat)
    requires i < |lines|
    ensures FieldsOf(lines[..i + 1]) ==
            match FieldOf(lines[i])
            case None => FieldsOf(lines[..i])
            case Some(f) => FieldsOf(lines[..i]) + [f]
  {
    hide FieldOf;
    assert lines[..i + 1][..i] == lines[..i];
    assert FieldsOf(lines[..i]) + [] == FieldsOf(lines[..i]);
  }

  lemma LastNext(fields: seq<Field>, f: Field)
    ensures forall key :: Last(fields + [f], key) == if f.key == key then Some(f.value) else Last(fields, key)
  {
    assert (fields + [f])[..|fields|] == fields;
  }

  lemma HeaderNext(fields: seq<Field>)
    requires fields != []
    ensures Header(fields) == FieldLine(fields[0]) + "\n" + Header(fields[1..])
  {
    hide FieldLine;
  }

  lemma {:induction false} HeaderConcat(a: seq<Field>, b: seq<Field>)
    ensures Header(a + b) == Header(a) + Header(b)
  {
    hide FieldLine;
    if a == [] {
      assert a + b == b;
    } else {
      assert (a + b)[0] == a[0] && (a + b)[1..] == a[1..] + b;
      HeaderNext(a);
      HeaderNext(a + b);
      hide Header;
      HeaderConcat(a[1..], b);
      LineFirst(FieldLine(a[0]), Header(a[1..]), Header(b));
    }
  }

  lemma LineFirst(line: string, x: string, y: string)
    ensures line + "\n" + (x + y) == line + "\n" + x + y
  {
  }

  lemma HeaderOfOne(f: Field)
    ensures Header([f]) == FieldLine(f) + "\n"
  {
    hide FieldLine;
    assert Header([f][1..]) == "";
  }

  /******* Reading, told by the text *******/

  predicate ClosesAt(s: string, i: nat) { i <= |s| && "\n---" <= s[i..] }

  lemma ClosesLater(s: string, j: nat)
    requires s != ""
    ensures ClosesAt(s[1..], j) <==> ClosesAt(s, j + 1)
  {
    if j < |s| {
      assert s[1..][j..] == s[j + 1..];
    }
  }

  lemma FindClosingNext(s: string)
    ensures FindClosing(s) ==
            if ClosesAt(s, 0) then Some(0)
            else if s == "" || FindClosing(s[1..]).None? then None
            else Some(FindClosing(s[1..]).value + 1)
    ensures s == "" ==> forall j: nat :: !ClosesAt(s, j)
  {
    assert s[0..] == s;
  }

  /** The header ends at the first newline that three dashes follow. */
  lemma {:induction false} FindClosingExactly(s: string, i: nat)
    ensures FindClosing(s) == Some(i) <==> ClosesAt(s, i) && forall j: nat | j < i :: !ClosesAt(s, j)
    ensures FindClosing(s).None? <==> forall j: nat :: !ClosesAt(s, j)
  {
    hide FindClosing, ClosesAt;
    FindClosingNext(s);
    if s != "" && !ClosesAt(s, 0) {
      FindClosingExactly(s[1..], if i > 0 then i - 1 else 0);
      forall j: nat ensures ClosesAt(s[1..], j) <==> ClosesAt(s, j + 1) {
        ClosesLater(s, j);
      }
      assert forall j: nat | j > 0 :: ClosesAt(s, j) <==> ClosesAt(s[1..], j - 1);
      if FindClosing(s) == Some(i) || ClosesAt(s, i) {
        assert i > 0;
      }
    }
  }

  lemma Cuts(a: string, b: string, c: string, d: string)
    ensures var s := a + b + c + d;
      a <= s && s[|a|..] == b + (c + d) && s[|a|..][|b|..] == c + d && s[|a|..][..|b|] == b && s[|a| + |b| + |c|..] == d
  {
    var s := a + b + c + d;
    assert s == a + (b + (c + d)) && s == a + b + c + d;
    assert (b + (c + d))[|b|..] == c + d && (b + (c + d))[..|b|] == b;
  }

  /** A file with a header is the header's lines, up to the first that closes it, and the text after. */
  lemma HeaderExactly(header: string, text: string)
    ensures var raw := "---\n" + header + "\n---" + text;
      && |raw| >= 4
      && ((forall j: nat | j < |header| :: !ClosesAt(raw[4..], j)) ==>
            ParseFile(raw) == Parsed(SplitLines(header), TrimNewlines(text)))
  {
    hide SplitLines, TrimNewlines, FindClosing;
    var raw := OPENING + header + CLOSING + text;
    Cuts(OPENING, header, CLOSING, text);
    FindClosingExactly(raw[4..], |header|);
  }

  /** Any other file is text. */
  lemma NoHeaderExactly(raw: string)
    requires !("---\n" <= raw) || forall j: nat :: !ClosesAt(raw[4..], j)
    ensures ParseFile(raw) == Parsed([], TrimNewlines(raw))
  {
    hide SplitLines, TrimNewlines, FindClosing;
    if StartsWith(raw, OPENING) {
      FindClosingExactly(raw[4..], 0);
    }
  }

  /** Leading newlines are cut off, and nothing else. */
  lemma {:induction false} NewlinesExactly(s: string) returns (a: string)
    ensures s == a + TrimNewlines(s) && forall c | c in a :: c == '\n'
    ensures TrimNewlines(s) == "" || TrimNewlines(s)[0] != '\n'
  {
    if s != "" && s[0] == '\n' {
      a := NewlinesExactly(s[1..]);
      a := [s[0]] + a;
    } else {
      a := "";
    }
  }

  lemma SplitAt(line: string, more: string)
    requires '\n' !in line
    ensures SplitLines(line + ['\n'] + more) == [StripCr(line)] + SplitLines(more)
  {
    hide StripCr;
    var s := line + ['\n'] + more;
    IndexOfCut(line, '\n', more);
    assert s[..|line|] == line && s[|line| + 1..] == more;
  }

  lemma StripExactly(line: string)
    ensures StripCr(line + "\r") == line
    ensures line == "" || line[|line| - 1] != '\r' ==> StripCr(line) == line
  {
    assert (line + "\r")[..|line|] == line;
  }

  /** A line ends at a newline, with the carriage return before it; the last line may end without. */
  lemma SplitExactly(line: string, more: string)
    requires '\n' !in line
    ensures SplitLines(line + "\r" + "\n" + more) == [line] + SplitLines(more)
    ensures line == "" || line[|line| - 1] != '\r' ==> SplitLines(line + "\n" + more) == [line] + SplitLines(more)
    ensures SplitLines(line) == if line == "" then [] else [line]
  {
    LastLine(line);
    hide SplitLines, StripCr;
    StripExactly(line);
    SplitAt(line + "\r", more);
    SplitAt(line, more);
  }

  lemma LastLine(line: string)
    requires '\n' !in line
    ensures SplitLines(line) == if line == "" then [] else [line]
  {
  }

  predicate EscapedAt(s: string, i: nat) { i + 1 < |s| && s[i] == '\\' && s[i + 1] == '"' }

  lemma UnescapeNext(s: string)
    requires s != ""
    ensures Unescape(s) == if EscapedAt(s, 0) then "\"" + Unescape(s[2..]) else [s[0]] + Unescape(s[1..])
    ensures forall j: nat :: EscapedAt(s[1..], j) <==> EscapedAt(s, j + 1)
  {
    assert StartsWith(s, "\\\"") <==> EscapedAt(s, 0);
  }

  /** Where no quote is escaped, nothing changes. */
  lemma {:induction false} UnescapeNone(s: string)
    requires forall j: nat :: !EscapedAt(s, j)
    ensures Unescape(s) == s
  {
    if s != "" {
      UnescapeNext(s);
      hide Unescape, EscapedAt;
      UnescapeNone(s[1..]);
      assert s == [s[0]] + s[1..];
    }
  }

  /** The first escaped quote loses its backslash. */
  lemma {:induction false} UnescapeFirst(s: string, i: nat)
    requires EscapedAt(s, i) && forall j: nat | j < i :: !EscapedAt(s, j)
    ensures i + 2 <= |s| && Unescape(s) == s[..i] + "\"" + Unescape(s[i + 2..])
  {
    EscapedInside(s, i);
    UnescapeNext(s);
    hide Unescape, EscapedAt;
    if i == 0 {
      assert s[..0] + "\"" == "\"";
    } else {
      UnescapeFirst(s[1..], i - 1);
      LongerByOne(s, i - 1);
      Behind([s[0]], s[1..][..i - 1], Unescape(s[i + 2..]));
    }
  }

  lemma Behind(a: string, b: string, c: string)
    ensures a + (b + "\"" + c) == a + b + "\"" + c
  {
  }

  lemma EscapedInside(s: string, i: nat)
    requires EscapedAt(s, i)
    ensures i + 2 <= |s|
  {
  }

  lemma LongerByOne(s: string, k: nat)
    requires s != ""
    ensures s == [s[0]] + s[1..]
    ensures k + 3 <= |s| ==> s[1..][k + 2..] == s[k + 1 + 2..] && [s[0]] + s[1..][..k] == s[..k + 1]
  {
  }

  /** Quotes of either kind around a value are taken off, with white space around them; no others are. */
  lemma UnquoteExactly(a: string, x: string, b: string)
    requires IsBlank(a) && IsBlank(b)
    ensures Unquote(a + ("\"" + x + "\"") + b) == Unescape(x)
    ensures Unquote(a + ("'" + x + "'") + b) == Unescape(x)
    ensures IsTrimmed(x) && (|x| < 2 || x[0] != x[|x| - 1] || (x[0] != '"' && x[0] != '\'')) ==> Unquote(a + x + b) == x
  {
    hide Unescape, TrimStart, TrimEnd, IsBlank;
    var double, single := "\"" + x + "\"", "'" + x + "'";
    assert IsTrimmed(double) && IsTrimmed(single);
    TrimUnique(a, double, b);
    TrimUnique(a, single, b);
    assert double[1..|double| - 1] == x && single[1..|single| - 1] == x;
    if IsTrimmed(x) {
      TrimUnique(a, x, b);
    }
  }

  lemma TrimTwice(a: string, s: string, b: string)
    requires IsBlank(a) && IsBlank(b)
    ensures Trim(a + s + b) == Trim(s)
  {
    hide TrimStart, TrimEnd, IsWhitespace;
    var x, y := TrimExactly(s);
    assert a + s + b == (a + x) + Trim(s) + (y + b);
    TrimUnique(a + x, Trim(s), y + b);
  }

  /** A value is what its trimmed text says. */
  lemma UnquoteTrimmed(s: string, t: string)
    requires Trim(s) == Trim(t)
    ensures Unquote(s) == Unquote(t)
  {
    hide Unescape, TrimStart, TrimEnd;
  }

  /** A key or value without the white space on its outer side. */
  lemma InnerSide(s: string) returns (outer: string, k: string)
    ensures s == outer + k && IsBlank(outer) && (k != "" ==> !IsWhitespace(k[0])) && Trim(k) == Trim(s)
  {
    hide TrimStart, TrimEnd, IsWhitespace;
    var a, b := TrimExactly(s);
    if Trim(s) == "" {
      outer, k := s, "";
      assert a + "" + b == s;
      TrimTwice(s, "", "");
      assert s + "" + "" == s;
    } else {
      outer, k := a, Trim(s) + b;
      assert s == a + (Trim(s) + b);
      TrimUnique("", Trim(s), b);
      assert "" + Trim(s) + b == Trim(s) + b;
    }
  }

  lemma OuterSide(s: string) returns (k: string, outer: string)
    ensures s == k + outer && IsBlank(outer) && (k != "" ==> !IsWhitespace(k[|k| - 1])) && Trim(k) == Trim(s)
  {
    hide TrimStart, TrimEnd, IsWhitespace;
    var a, b := TrimExactly(s);
    if Trim(s) == "" {
      outer, k := s, "";
      assert a + "" + b == s;
      TrimTwice(s, "", "");
      assert s + "" + "" == s;
    } else {
      k, outer := a + Trim(s), b;
      TrimUnique(a, Trim(s), "");
      assert a + Trim(s) + "" == a + Trim(s);
    }
  }

  /** A header line is a key and a value around its first colon; a line without a colon is none. */
  lemma FieldExactly(key: string, value: string)
    requires ':' !in key
    ensures FieldOf(key) == None
    ensures FieldOf(key + ":" + value) == Some(Field(Trim(key), Unquote(value)))
  {
    hide Unescape, TrimStart, TrimEnd, IsWhitespace, Unquote, IsBlank, Trim;
    TrimIsTrimmed(key);
    var a, k := InnerSide(key);
    var v, d := OuterSide(value);
    var s := k + [':'] + v;
    assert key + ":" + value == a + s + d;
    assert !IsWhitespace(':') by { WhitespaceExactly(':'); }
    assert s[0] == if k == "" then ':' else k[0];
    assert s[|s| - 1] == if v == "" then ':' else v[|v| - 1];
    TrimUnique(a, s, d);
    IndexOfCut(k, ':', v);
    assert s[..|k|] == k && s[|k| + 1..] == v;
    TrimIsTrimmed(v);
    TrimIsTrimmed(Trim(v));
    UnquoteTrimmed(Trim(v), value);
  }

  /******* The value of a field *******/

  ghost predicate LastSays(lines: seq<string>, key: string, value: string, i: nat) {
    && i < |lines| && FieldOf(lines[i]) == Some(Field(key, value))
    && forall j | i < j < |lines| && FieldOf(lines[j]).Some? :: FieldOf(lines[j]).value.key != key
  }

  /** A field has the value that the last header line with its key says. */
  lemma {:induction false} ValueExactly(lines: seq<string>, key: string, value: string)
    ensures Last(FieldsOf(lines), key) == Some(value) <==> exists i: nat :: LastSays(lines, key, value, i)
  {
    hide FieldOf;
    if lines != [] {
      var front, last := lines[..|lines| - 1], lines[|lines| - 1];
      assert lines == front + [last];
      ValueExactly(front, key, value);
      SaysNext(front, last, key, value);
      FieldsNext(lines, |front|);
      assert lines[..|front| + 1] == lines;
      if FieldOf(last).Some? {
        LastNext(FieldsOf(front), FieldOf(last).value);
      }
    }
  }

  lemma SaysNext(front: seq<string>, last: string, key: string, value: string)
    ensures (exists i: nat :: LastSays(front + [last], key, value, i)) <==>
            if FieldOf(last).Some? && FieldOf(last).value.key == key then FieldOf(last).value.value == value
            else exists i: nat :: LastSays(front, key, value, i)
  {
    hide FieldOf;
    var lines := front + [last];
    assert lines[|front|] == last;
    if exists i: nat :: LastSays(lines, key, value, i) {
      var i: nat :| LastSays(lines, key, value, i);
      if i < |front| {
        assert forall j | i <= j < |front| :: lines[j] == front[j];
        assert LastSays(front, key, value, i);
      }
    }
    if FieldOf(last).Some? && FieldOf(last).value.key == key {
      if FieldOf(last).value.value == value {
        assert LastSays(lines, key, value, |front|);
      }
    } else if exists i: nat :: LastSays(front, key, value, i) {
      var i: nat :| LastSays(front, key, value, i);
      assert forall j | i <= j < |front| :: lines[j] == front[j];
      assert LastSays(lines, key, value, i);
    }
  }

  /******* Escaping, character by character *******/

  lemma {:induction false} EscapeConcat(a: string, b: string)
    ensures EscapeQuotes(a + b) == EscapeQuotes(a) + EscapeQuotes(b)
  {
    if a == "" {
      assert a + b == b;
    } else {
      assert (a + b)[1..] == a[1..] + b;
      EscapeConcat(a[1..], b);
    }
  }

  lemma {:induction false} DoubleConcat(a: string, b: string)
    ensures DoubleBackslashes(a + b) == DoubleBackslashes(a) + DoubleBackslashes(b)
  {
    if a == "" {
      assert a + b == b;
    } else {
      assert (a + b)[1..] == a[1..] + b;
      DoubleConcat(a[1..], b);
    }
  }

  /** A quote gets a backslash before it, a backslash another one; all other characters stay. */
  lemma EscapedOne(c: char)
    ensures EscapeQuotes([c]) == if c == '"' then "\\\"" else [c]
    ensures DoubleBackslashes([c]) == if c == '\\' then "\\\\" else [c]
  {
    assert [c][1..] == "" && EscapeQuotes("") == "" && DoubleBackslashes("") == "";
  }
}
