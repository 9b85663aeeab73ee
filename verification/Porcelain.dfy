/** Reading `git status --porcelain=v1 -z`: NUL-terminated records, some with a second path. */
module Porcelain {
  import opened Wrappers
  import opened Lines
  import Text

  const NUL: Byte := 0

  datatype GitStatus = GitStatus(uncommitted: nat, untracked: nat, dirty: map<string, string>)

  const NO_STATUS := GitStatus(0, 0, map[])

  /******* Reading *******/

  function FirstNul(bytes: Bytes): (i: nat)
    ensures i <= |bytes| && NUL !in bytes[..i] && (i < |bytes| ==> bytes[i] == NUL)
  {
    if bytes == [] || bytes[0] == NUL then 0
    else
      var i := FirstNul(bytes[1..]);
      assert bytes[..i + 1] == [bytes[0]] + bytes[1..][..i];
      i + 1
  }

  /** `bytes.split(|&b| b == 0)` */
  function Pieces(bytes: Bytes): (r: seq<Bytes>)
    ensures r != []
  {
    var i := FirstNul(bytes);
    if i == |bytes| then [bytes] else [bytes[..i]] + Pieces(bytes[i + 1..])
  }

  /** The first two bytes as text, or two blanks if they are not UTF-8. */
  function CodeOf(record: Bytes): string
    requires |record| >= 2
  {
    var a, b := record[0], record[1];
    if a < 128 && b < 128 then [a as int as char, b as int as char]
    else if 0xC2 <= a <= 0xDF && 0x80 <= b <= 0xBF then [((a as int - 0xC0) * 64 + (b as int - 0x80)) as char]
    else "  "
  }

  lemma EncodedOne(c: char)
    ensures Text.Encoded([c]) == Text.Utf8(c)
  {
    assert [c][..0] == [];
  }

  lemma EncodedTwo(c: char, d: char)
    ensures Text.Encoded([c, d]) == Text.Utf8(c) + Text.Utf8(d)
  {
    hide Text.Utf8;
    assert [c, d][..1] == [c];
    EncodedOne(c);
  }

  /** Text of two bytes is two characters of one byte, or one of two. */
  lemma TwoBytes(code: string)
    requires |Text.Encoded(code)| == 2
    ensures var e := Text.Encoded(code);
      (e[0] < 0x80 && e[1] < 0x80) || (0xC2 <= e[0] <= 0xDF && 0x80 <= e[1] <= 0xBF)
  {
    EncodedIsLonger(code);
    if |code| == 2 {
      EncodedTwo(code[0], code[1]);
      assert code == [code[0], code[1]];
    } else {
      EncodedOne(code[0]);
      assert code == [code[0]];
    }
  }

  lemma {:induction false} EncodedIsLonger(s: string)
    ensures |Text.Encoded(s)| >= |s| && (s == "" ==> Text.Encoded(s) == [])
  {
    hide Text.Utf8;
    if s != "" {
      EncodedIsLonger(s[..|s| - 1]);
    }
  }

  lemma OneByteChars(a: Byte, b: Byte)
    requires a < 128 && b < 128
    ensures Text.Encoded([a as int as char, b as int as char]) == [a, b]
  {
    EncodedTwo(a as int as char, b as int as char);
  }

  lemma TwoByteChar(a: Byte, b: Byte)
    requires 0xC2 <= a <= 0xDF && 0x80 <= b <= 0xBF
    ensures Text.Encoded([((a as int - 0xC0) * 64 + (b as int - 0x80)) as char]) == [a, b]
  {
    EncodedOne(((a as int - 0xC0) * 64 + (b as int - 0x80)) as char);
  }

  /** The code is the text that the first two bytes encode, or two blanks if they encode none. */
  lemma CodeExactly(record: Bytes)
    requires |record| >= 2
    ensures if exists code :: Text.Encoded(code) == record[..2] then Text.Encoded(CodeOf(record)) == record[..2]
            else CodeOf(record) == "  "
  {
    hide Text.Encoded;
    var a, b := record[0], record[1];
    assert record[..2] == [a, b];
    if a < 128 && b < 128 {
      OneByteChars(a, b);
    } else if 0xC2 <= a <= 0xDF && 0x80 <= b <= 0xBF {
      TwoByteChar(a, b);
    } else {
      forall code | |Text.Encoded(code)| == 2 ensures Text.Encoded(code) != record[..2] {
        TwoBytes(code);
      }
    }
  }

  /** The codes after which the next record is taken for an original path. */
  const TWO_PATH_CODES: set<string> := {"R ", "RM", "C ", "CM"}

  function Counted(st: GitStatus, code: string, path: string): GitStatus {
    GitStatus(st.uncommitted + 1, st.untracked + (if code == "??" then 1 else 0), st.dirty[path := code])
  }

  function ParsePieces(pieces: seq<Bytes>, lossy: Bytes -> string, st: GitStatus): GitStatus
    decreases |pieces|
  {
    if pieces == [] then st
    else if |pieces[0]| < 3 then ParsePieces(pieces[1..], lossy, st)
    else
      var code := CodeOf(pieces[0]);
      var rest := if code in TWO_PATH_CODES && |pieces| > 1 then pieces[2..] else pieces[1..];
      ParsePieces(rest, lossy, Counted(st, code, lossy(pieces[0][3..])))
  }

  /** `lossy` decodes a path, replacing what is not UTF-8. */
  method ParsePorcelain(bytes: Bytes, lossy: Bytes -> string, st: GitStatus) returns (r: GitStatus)
    ensures r == ParsePieces(Pieces(bytes), lossy, st)
  {
    hide Pieces, CodeOf;
    var pieces := Pieces(bytes);
    r := st;
    var i := 0;
    while i < |pieces|
      invariant i <= |pieces|
      invariant ParsePieces(pieces[i..], lossy, r) == ParsePieces(pieces, lossy, st)
    {
      var record := pieces[i];
      assert pieces[i..][1..] == pieces[i + 1..];
      assert i + 1 < |pieces| ==> pieces[i..][2..] == pieces[i + 2..];
      i := i + 1;
      if |record| >= 3 {
        var code, path := CodeOf(record), lossy(record[3..]);
        if code in TWO_PATH_CODES && i < |pieces| {
          i := i + 1;
        }
        r := Counted(r, code, path);
      }
    }
  }

  /******* Writing *******/

  /** A status record; renames and copies carry the original path too. */
  datatype Record = One(code: string, path: Bytes) | Two(code: string, path: Bytes, original: Bytes)

  predicate AsciiCode(code: string) {
    |code| == 2 && forall c | c in code :: 0 < c as int < 128
  }

  predicate Writable(r: Record) {
    AsciiCode(r.code) && NUL !in r.path && (r.Two? ==> NUL !in r.original)
  }

  function Prefix(code: string): Bytes
    requires AsciiCode(code)
  {
    assert code[0] in code && code[1] in code;
    [code[0] as int as Byte, code[1] as int as Byte, 32]
  }

  function Rendered(r: Record): Bytes
    requires AsciiCode(r.code)
  {
    Prefix(r.code) + r.path + [NUL] + if r.Two? then r.original + [NUL] else []
  }

  function RenderAll(rs: seq<Record>): Bytes
    requires forall i | 0 <= i < |rs| :: Writable(rs[i])
  {
    if rs == [] then [] else assert Writable(rs[0]); Rendered(rs[0]) + RenderAll(rs[1..])
  }

  /** One count for every record, one untracked for every `??`, and the last code of every path. */
  function Summary(rs: seq<Record>, lossy: Bytes -> string): GitStatus {
    GitStatus(|rs|, Untracked(rs), LastCodes(rs, lossy))
  }

  function Untracked(rs: seq<Record>): nat {
    if rs == [] then 0 else Untracked(rs[..|rs| - 1]) + if rs[|rs| - 1].code == "??" then 1 else 0
  }

  function LastCodes(rs: seq<Record>, lossy: Bytes -> string): map<string, string> {
    if rs == [] then map[]
    else LastCodes(rs[..|rs| - 1], lossy)[lossy(rs[|rs| - 1].path) := rs[|rs| - 1].code]
  }

  /** The code says how many paths the record has. */
  predicate CodeTells(r: Record) { r.Two? <==> r.code in TWO_PATH_CODES }

  /******* Round trip *******/

  lemma {:induction false} FirstNulAt(piece: Bytes, rest: Bytes)
    requires NUL !in piece
    ensures FirstNul(piece + [NUL] + rest) == |piece|
  {
    var all := piece + [NUL] + rest;
    if piece != [] {
      assert all[0] == piece[0] && piece[0] in piece;
      assert all[1..] == piece[1..] + [NUL] + rest;
      FirstNulAt(piece[1..], rest);
    }
  }

  lemma FirstPiece(piece: Bytes, rest: Bytes)
    requires NUL !in piece
    ensures Pieces(piece + [NUL] + rest) == [piece] + Pieces(rest)
  {
    var all := piece + [NUL] + rest;
    FirstNulAt(piece, rest);
    assert all[..|piece|] == piece && all[|piece| + 1..] == rest;
  }

  function RecordPieces(r: Record): seq<Bytes>
    requires AsciiCode(r.code)
  {
    [Prefix(r.code) + r.path] + if r.Two? then [r.original] else []
  }

  lemma RenderedPieces(r: Record, rest: Bytes)
    requires Writable(r)
    ensures Pieces(Rendered(r) + rest) == RecordPieces(r) + Pieces(rest)
  {
    hide Pieces;
    var first := Prefix(r.code) + r.path;
    PrefixHasNoNul(r.code);
    match r
    case One(_, _) =>
      assert Rendered(r) + rest == first + [NUL] + rest;
      FirstPiece(first, rest);
    case Two(_, _, original) =>
      assert Rendered(r) + rest == first + [NUL] + (original + [NUL] + rest);
      FirstPiece(first, original + [NUL] + rest);
      FirstPiece(original, rest);
      assert [first] + ([original] + Pieces(rest)) == RecordPieces(r) + Pieces(rest);
  }

  lemma PrefixHasNoNul(code: string)
    requires AsciiCode(code)
    ensures NUL !in Prefix(code) && CodeOf(Prefix(code)) == code
    ensures forall path: Bytes :: CodeOf(Prefix(code) + path) == code && (Prefix(code) + path)[3..] == path
  {
    assert code[0] in code && code[1] in code;
    assert code == [code[0], code[1]];
  }

  lemma ParseRecord(r: Record, more: seq<Bytes>, lossy: Bytes -> string, st: GitStatus)
    requires AsciiCode(r.code) && CodeTells(r)
    ensures ParsePieces(RecordPieces(r) + more, lossy, st) == ParsePieces(more, lossy, Counted(st, r.code, lossy(r.path)))
  {
    hide CodeOf, Prefix;
    PrefixHasNoNul(r.code);
    var pieces := RecordPieces(r) + more;
    assert pieces[0] == Prefix(r.code) + r.path;
    PrefixLength(r.code);
    if r.Two? {
      assert pieces[2..] == more;
    } else {
      assert pieces[1..] == more;
    }
  }

  lemma PrefixLength(code: string)
    requires AsciiCode(code)
    ensures |Prefix(code)| == 3
  {
  }

  function CountAll(rs: seq<Record>, lossy: Bytes -> string, st: GitStatus): GitStatus {
    if rs == [] then st else CountAll(rs[1..], lossy, Counted(st, rs[0].code, lossy(rs[0].path)))
  }

  lemma {:induction false} ParseAll(rs: seq<Record>, lossy: Bytes -> string, st: GitStatus)
    requires forall i | 0 <= i < |rs| :: Writable(rs[i]) && CodeTells(rs[i])
    ensures ParsePieces(Pieces(RenderAll(rs)), lossy, st) == CountAll(rs, lossy, st)
  {
    hide Rendered, RecordPieces, CodeTells;
    if rs == [] {
      NothingRendered(lossy, st);
    } else {
      RenderedPieces(rs[0], RenderAll(rs[1..]));
      hide Pieces, ParsePieces;
      ParseRecord(rs[0], Pieces(RenderAll(rs[1..])), lossy, st);
      ParseAll(rs[1..], lossy, Counted(st, rs[0].code, lossy(rs[0].path)));
    }
  }

  /** After records whose codes tell how many paths they have, whatever follows is read as it would be alone. */
  lemma {:induction false} ParseThen(rs: seq<Record>, rest: Bytes, lossy: Bytes -> string, st: GitStatus)
    requires forall i | 0 <= i < |rs| :: Writable(rs[i]) && CodeTells(rs[i])
    ensures ParsePieces(Pieces(RenderAll(rs) + rest), lossy, st) == ParsePieces(Pieces(rest), lossy, CountAll(rs, lossy, st))
  {
    hide Rendered, RecordPieces, CodeTells, Pieces, ParsePieces;
    if rs == [] {
      assert RenderAll(rs) + rest == rest;
    } else {
      var more := RenderAll(rs[1..]) + rest;
      assert RenderAll(rs) + rest == Rendered(rs[0]) + more;
      RenderedPieces(rs[0], more);
      ParseRecord(rs[0], Pieces(more), lossy, st);
      ParseThen(rs[1..], rest, lossy, Counted(st, rs[0].code, lossy(rs[0].path)));
    }
  }

  /** A record of fewer than three bytes counts for nothing, wherever it stands. */
  lemma ShortIgnored(rs: seq<Record>, short: Bytes, rest: Bytes, lossy: Bytes -> string, st: GitStatus)
    requires forall i | 0 <= i < |rs| :: Writable(rs[i]) && CodeTells(rs[i])
    requires |short| < 3 && NUL !in short
    ensures ParsePieces(Pieces(RenderAll(rs) + (short + [NUL] + rest)), lossy, st) ==
            ParsePieces(Pieces(RenderAll(rs) + rest), lossy, st)
  {
    hide Rendered, CodeTells, Pieces, CodeOf;
    ParseThen(rs, short + [NUL] + rest, lossy, st);
    ParseThen(rs, rest, lossy, st);
    FirstPiece(short, rest);
    assert ([short] + Pieces(rest))[1..] == Pieces(rest);
  }

  lemma NothingRendered(lossy: Bytes -> string, st: GitStatus)
    ensures ParsePieces(Pieces([]), lossy, st) == st
  {
    var pieces: seq<Bytes> := [[]];
    assert Pieces([]) == pieces && pieces[1..] == [];
  }

  lemma {:induction false} CountLast(rs: seq<Record>, lossy: Bytes -> string, st: GitStatus)
    requires rs != []
    ensures var last := rs[|rs| - 1];
      CountAll(rs, lossy, st) == Counted(CountAll(rs[..|rs| - 1], lossy, st), last.code, lossy(last.path))
  {
    if |rs| > 1 {
      CountLast(rs[1..], lossy, Counted(st, rs[0].code, lossy(rs[0].path)));
      assert rs[1..][..|rs| - 2] == rs[..|rs| - 1][1..];
    } else {
      assert rs[1..] == [] && rs[..0] == [];
    }
  }

  lemma {:induction false} CountIsSummary(rs: seq<Record>, lossy: Bytes -> string)
    ensures CountAll(rs, lossy, NO_STATUS) == Summary(rs, lossy)
  {
    if rs != [] {
      CountIsSummary(rs[..|rs| - 1], lossy);
      CountLast(rs, lossy, NO_STATUS);
    }
  }

  /** Records whose codes tell how many paths they have are read back as what they are. */
  lemma PorcelainInverse(rs: seq<Record>, lossy: Bytes -> string)
    requires forall i | 0 <= i < |rs| :: Writable(rs[i]) && CodeTells(rs[i])
    ensures ParsePieces(Pieces(RenderAll(rs)), lossy, NO_STATUS) == Summary(rs, lossy)
  {
    ParseAll(rs, lossy, NO_STATUS);
    CountIsSummary(rs, lossy);
  }

  /** What a path's code is in the summary: that of the last record with the path. */
  lemma {:induction false} LastCodeWins(rs: seq<Record>, lossy: Bytes -> string, i: nat)
    requires i < |rs| && forall j | i < j < |rs| :: lossy(rs[j].path) != lossy(rs[i].path)
    ensures lossy(rs[i].path) in LastCodes(rs, lossy) && LastCodes(rs, lossy)[lossy(rs[i].path)] == rs[i].code
  {
    if i < |rs| - 1 {
      LastCodeWins(rs[..|rs| - 1], lossy, i);
    }
  }

  /** Every record with this code and shape is read right, and so is whatever follows it. */
  ghost predicate ReadsRight(code: string, two: bool) {
    forall r, next, lossy |
      Writable(r) && r.code == code && r.Two? == two && Writable(next) && CodeTells(next) :: RightAfter(r, next, lossy)
  }

  predicate RightAfter(r: Record, next: Record, lossy: Bytes -> string)
    requires Writable(r) && Writable(next)
  {
    ParsePieces(Pieces(RenderAll([r, next])), lossy, NO_STATUS) == Summary([r, next], lossy)
  }

  /** A two-path record is read right exactly under the four codes; a one-path record exactly under the others. */
  lemma CodesExactly(code: string, two: bool)
    requires AsciiCode(code)
    ensures ReadsRight(code, two) <==> (two <==> code == "R " || code == "RM" || code == "C " || code == "CM")
  {
    hide RightAfter;
    if two <==> code in TWO_PATH_CODES {
      forall r, next, lossy | Writable(r) && r.code == code && r.Two? == two && Writable(next) && CodeTells(next)
        ensures RightAfter(r, next, lossy)
      {
        RightWhenTold(r, next, lossy);
      }
    } else {
      var path: Bytes := [97];
      var lossy := (b: Bytes) => "";
      if two {
        ExtraRecord(code, path, lossy);
        assert !RightAfter(Two(code, path, [97, 97, 97]), One("??", [98]), lossy);
      } else {
        SwallowedRecord(code, path, lossy);
        assert !RightAfter(One(code, path), One("??", [98]), lossy);
      }
    }
  }

  lemma RightWhenTold(r: Record, next: Record, lossy: Bytes -> string)
    requires Writable(r) && CodeTells(r) && Writable(next) && CodeTells(next)
    ensures RightAfter(r, next, lossy)
  {
    PorcelainInverse([r, next], lossy);
  }

  lemma RenderTwo(r: Record, next: Record)
    requires Writable(r) && Writable(next)
    ensures Pieces(RenderAll([r, next])) == RecordPieces(r) + RecordPieces(next) + [[]]
  {
    hide Rendered, RecordPieces;
    assert [r, next][1..] == [next] && [next][1..] == [];
    RenderedPieces(r, RenderAll([next]));
    RenderedPieces(next, []);
    assert RenderAll([next]) == Rendered(next) + [];
    assert Pieces([]) == [[]];
    assert RecordPieces(r) + (RecordPieces(next) + [[]]) == RecordPieces(r) + RecordPieces(next) + [[]];
  }

  /** Under any other code, the original path is counted as a record of its own. */
  lemma ExtraRecord(code: string, path: Bytes, lossy: Bytes -> string)
    requires AsciiCode(code) && code !in TWO_PATH_CODES && NUL !in path
    ensures !RightAfter(Two(code, path, [97, 97, 97]), One("??", [98]), lossy)
  {
    var original: Bytes := [97, 97, 97];
    var r, next := Two(code, path, original), One("??", [98]);
    RenderTwo(r, next);
    PrefixHasNoNul(code);
    PrefixHasNoNul("??");
    var pieces := [Prefix(code) + path, original, Prefix("??") + [98], []];
    assert RecordPieces(r) + RecordPieces(next) + [[]] == pieces;
    hide Pieces, Prefix;
    PrefixLength(code);
    PrefixLength("??");
    hide CodeOf;
    var a := Counted(NO_STATUS, code, lossy(path));
    assert pieces[1..] == [original, Prefix("??") + [98], []];
    assert ParsePieces(pieces, lossy, NO_STATUS) == ParsePieces(pieces[1..], lossy, a);
    CountsAtLeast(pieces[1..], lossy, a, CodeOf(original));
  }

  /** Three pieces of three bytes or more, of which the first is no two-path record, are at least two counts. */
  lemma CountsAtLeast(pieces: seq<Bytes>, lossy: Bytes -> string, st: GitStatus, code: string)
    requires |pieces| == 3 && pieces[0] == [97, 97, 97] && |pieces[1]| >= 3
    ensures ParsePieces(pieces, lossy, st).uncommitted >= st.uncommitted + 2
  {
    assert CodeOf(pieces[0]) == "aa";
    hide CodeOf;
    var b := Counted(st, "aa", lossy(pieces[0][3..]));
    assert ParsePieces(pieces, lossy, st) == ParsePieces(pieces[1..], lossy, b);
    CountNeverFalls(if CodeOf(pieces[1]) in TWO_PATH_CODES then pieces[1..][2..] else pieces[1..][1..], lossy,
                    Counted(b, CodeOf(pieces[1]), lossy(pieces[1][3..])));
  }

  lemma {:induction false} CountNeverFalls(pieces: seq<Bytes>, lossy: Bytes -> string, st: GitStatus)
    ensures ParsePieces(pieces, lossy, st).uncommitted >= st.uncommitted
    decreases |pieces|
  {
    hide CodeOf;
    if pieces != [] {
      if |pieces[0]| < 3 {
        CountNeverFalls(pieces[1..], lossy, st);
      } else {
        var code := CodeOf(pieces[0]);
        var rest := if code in TWO_PATH_CODES && |pieces| > 1 then pieces[2..] else pieces[1..];
        CountNeverFalls(rest, lossy, Counted(st, code, lossy(pieces[0][3..])));
      }
    }
  }

  /** A one-path record under one of the four codes swallows the record after it. */
  lemma SwallowedRecord(code: string, path: Bytes, lossy: Bytes -> string)
    requires AsciiCode(code) && code in TWO_PATH_CODES && NUL !in path
    ensures !RightAfter(One(code, path), One("??", [98]), lossy)
  {
    var r, next := One(code, path), One("??", [98]);
    RenderTwo(r, next);
    PrefixHasNoNul(code);
    var pieces := [Prefix(code) + path, Prefix("??") + [98], []];
    assert RecordPieces(r) + RecordPieces(next) + [[]] == pieces;
    hide Pieces, Prefix;
    PrefixLength(code);
    hide CodeOf;
    var a := Counted(NO_STATUS, code, lossy(path));
    var last: seq<Bytes> := [[]];
    assert pieces[2..] == last;
    assert ParsePieces(pieces, lossy, NO_STATUS) == ParsePieces(last, lossy, a);
    assert last[1..] == [];
    assert ParsePieces(last, lossy, a) == a;
  }
}
