/**
 The stored git state of a repository: the fingerprint of a status, and the
 revision that the frontend uses as its cache key.
 */
module RepoState {
  import opened Wrappers
  import opened Ordering
  import Decimal
  import Text

  datatype DiffStat = DiffStat(additions: nat, deletions: nat)

  /** What a reading of the working tree found; the head is the last commit's short hash. */
  datatype Status = Status(
    branch: Option<string>, head: Option<string>, dirty: map<string, string>, churn: map<string, DiffStat>,
    details: Details)

  /** What is stored beside the state that the fingerprint covers. */
  datatype Details = Details(
    uncommitted: nat, untracked: nat, subject: Option<string>, committedAt: Option<string>, recent: seq<string>)

  function Churn(s: Status, path: string): DiffStat {
    if path in s.churn then s.churn[path] else DiffStat(0, 0)
  }

  function LineOf(path: string, code: string, churn: DiffStat): string {
    path + ":" + code + ":" + Decimal.Render(churn.additions) + ":" + Decimal.Render(churn.deletions)
  }

  function PathLine(s: Status, path: string): string
    requires path in s.dirty
  {
    LineOf(path, s.dirty[path], Churn(s, path))
  }

  function PathLines(s: Status, paths: seq<string>): (r: seq<string>)
    requires forall p | p in paths :: p in s.dirty
    ensures |r| == |paths|
    ensures forall i | 0 <= i < |r| :: r[i] == PathLine(s, paths[i])
  {
    seq(|paths|, i requires 0 <= i < |paths| => assert paths[i] in paths; PathLine(s, paths[i]))
  }

  function Header(s: Status): seq<string> { ["branch=" + s.branch.GetOr(""), "head=" + s.head.GetOr("")] }

  ghost predicate Lists(paths: seq<string>, s: Status) { Sorted(paths) && Members(paths) == s.dirty.Keys }

  lemma ListedAreDirty(paths: seq<string>, s: Status)
    requires Lists(paths, s)
    ensures forall p | p in paths :: p in s.dirty
  {
    assert forall p | p in paths :: p in Members(paths);
  }

  /** The header and one line a dirty path, in path order, joined by newlines. */
  ghost predicate IsFingerprint(s: Status, f: string) {
    exists paths ::
      && Lists(paths, s)
      && (forall p | p in paths :: p in s.dirty)
      && f == Text.Join(Header(s) + PathLines(s, paths), '\n')
  }

  method StatusFingerprint(s: Status) returns (f: string)
    ensures IsFingerprint(s, f)
  {
    hide PathLine, Header;
    var parts := Header(s);
    var dirty := Sort(s.dirty.Keys);
    ListedAreDirty(dirty, s);
    for i := 0 to |dirty|
      invariant parts == Header(s) + PathLines(s, dirty)[..i]
    {
      assert dirty[i] in dirty;
      LineAppended(s, dirty, i);
      parts := parts + [PathLine(s, dirty[i])];
    }
    assert PathLines(s, dirty)[..|dirty|] == PathLines(s, dirty);
    f := Text.Join(parts, '\n');
    assert Lists(dirty, s);
  }

  /** The lines for the listed paths, each after a newline; a path without churn has none added and none deleted. */
  function PathText(s: Status, paths: seq<string>): string
    requires forall p | p in paths :: p in s.dirty
  {
    if paths == [] then ""
    else
      var p := paths[0];
      "\n" + p + ":" + s.dirty[p] +
      ":" + (if p in s.churn then Decimal.Render(s.churn[p].additions) else "0") +
      ":" + (if p in s.churn then Decimal.Render(s.churn[p].deletions) else "0") +
      PathText(s, paths[1..])
  }

  /** The text of a fingerprint. */
  lemma FingerprintText(s: Status, f: string) returns (paths: seq<string>)
    requires IsFingerprint(s, f)
    ensures Lists(paths, s) && forall p | p in paths :: p in s.dirty
    ensures f == "branch=" + (if s.branch.Some? then s.branch.value else "") +
                 ("\nhead=" + (if s.head.Some? then s.head.value else "") + PathText(s, paths))
  {
    hide PathLine, PathText, Lists;
    paths :| Lists(paths, s) && (forall p | p in paths :: p in s.dirty) &&
             f == Text.Join(Header(s) + PathLines(s, paths), '\n');
    var branch, head, lines := Header(s)[0], Header(s)[1], PathLines(s, paths);
    assert (Header(s) + lines)[1..] == [head] + lines;
    assert Text.Join(Header(s) + lines, '\n') == branch + "\n" + Text.Join([head] + lines, '\n');
    JoinedAfter(s, head, paths);
    assert branch + "\n" + (head + PathText(s, paths)) == branch + ("\n" + head + PathText(s, paths));
  }

  lemma {:induction false} JoinedAfter(s: Status, first: string, paths: seq<string>)
    requires forall p | p in paths :: p in s.dirty
    ensures Text.Join([first] + PathLines(s, paths), '\n') == first + PathText(s, paths)
    decreases |paths|
  {
    hide PathLine;
    if paths == [] {
      assert [first] + PathLines(s, paths) == [first];
    } else {
      var p, lines, more := paths[0], PathLines(s, paths), paths[1..];
      assert ([first] + lines)[1..] == lines && lines == [lines[0]] + PathLines(s, more);
      JoinedAfter(s, lines[0], more);
      OneLine(s, p);
      LineThenMore(first, s, p, PathText(s, more));
    }
  }

  lemma OneLine(s: Status, p: string)
    requires p in s.dirty
    ensures PathLine(s, p) == p + ":" + s.dirty[p] +
                              ":" + (if p in s.churn then Decimal.Render(s.churn[p].additions) else "0") +
                              ":" + (if p in s.churn then Decimal.Render(s.churn[p].deletions) else "0")
  {
  }

  lemma LineThenMore(first: string, s: Status, p: string, more: string)
    requires p in s.dirty
    ensures var adds := if p in s.churn then Decimal.Render(s.churn[p].additions) else "0";
      var dels := if p in s.churn then Decimal.Render(s.churn[p].deletions) else "0";
      first + "\n" + (p + ":" + s.dirty[p] + ":" + adds + ":" + dels + more) ==
      first + ("\n" + p + ":" + s.dirty[p] + ":" + adds + ":" + dels + more)
  {
    hide Decimal.Render;
    var adds := if p in s.churn then Decimal.Render(s.churn[p].additions) else "0";
    var dels := if p in s.churn then Decimal.Render(s.churn[p].deletions) else "0";
    assert "\n" + p + ":" + s.dirty[p] + ":" + adds + ":" + dels + more ==
           "\n" + (p + ":" + s.dirty[p] + ":" + adds + ":" + dels + more);
  }

  lemma LineAppended(s: Status, paths: seq<string>, i: nat)
    requires i < |paths| && forall p | p in paths :: p in s.dirty
    ensures Header(s) + PathLines(s, paths)[..i + 1] == Header(s) + PathLines(s, paths)[..i] + [PathLine(s, paths[i])]
  {
    hide PathLine, Header;
  }

  /** What git produces: no empty names, two-letter codes, and newlines nowhere but in paths. */
  ghost predicate PlainNames(s: Status) {
    && (s.branch.Some? ==> s.branch.value != "" && '\n' !in s.branch.value)
    && (s.head.Some? ==> s.head.value != "" && '\n' !in s.head.value)
    && forall p | p in s.dirty :: |s.dirty[p]| == 2 && '\n' !in s.dirty[p]
  }

  /** And no path holds a newline either. */
  ghost predicate Plain(s: Status) { PlainNames(s) && forall p | p in s.dirty :: '\n' !in p }

  /** The same branch, head, codes, and churn, where no churn counts as none added and none deleted. */
  ghost predicate Same(a: Status, b: Status) {
    && a.branch == b.branch && a.head == b.head && a.dirty == b.dirty
    && forall p | p in a.dirty :: Churn(a, p) == Churn(b, p)
  }

  lemma DigitsOnly(n: nat)
    ensures ':' !in Decimal.Render(n) && '\n' !in Decimal.Render(n)
  {
  }

  lemma LineInjective(a: Status, b: Status, p: string, q: string)
    requires p in a.dirty && q in b.dirty && |a.dirty[p]| == 2 == |b.dirty[q]|
    requires PathLine(a, p) == PathLine(b, q)
    ensures p == q && a.dirty[p] == b.dirty[q] && Churn(a, p) == Churn(b, q)
  {
    hide Churn;
    var x, y := Churn(a, p), Churn(b, q);
    DigitsOnly(x.additions);
    DigitsOnly(x.deletions);
    DigitsOnly(y.additions);
    DigitsOnly(y.deletions);
    hide Decimal.Render;
    var a1, b1 := p + ":" + a.dirty[p], q + ":" + b.dirty[q];
    var a2, b2 := a1 + ":" + Decimal.Render(x.additions), b1 + ":" + Decimal.Render(y.additions);
    Text.SameLastCut(a2, Decimal.Render(x.deletions), b2, Decimal.Render(y.deletions), ':');
    Text.SameLastCut(a1, Decimal.Render(x.additions), b1, Decimal.Render(y.additions), ':');
    Decimal.RenderInjective(x.deletions, y.deletions);
    Decimal.RenderInjective(x.additions, y.additions);
    assert a1[..|a1| - 3] == p && b1[..|b1| - 3] == q;
    assert a1[|a1| - 2..] == a.dirty[p] && b1[|b1| - 2..] == b.dirty[q];
  }

  lemma PlainLine(s: Status, p: string)
    requires Plain(s) && p in s.dirty
    ensures '\n' !in PathLine(s, p)
  {
    hide Churn;
    DigitsOnly(Churn(s, p).additions);
    DigitsOnly(Churn(s, p).deletions);
    hide Decimal.Render;
  }

  lemma PlainParts(s: Status, paths: seq<string>)
    requires Plain(s) && forall p | p in paths :: p in s.dirty
    ensures forall part | part in Header(s) + PathLines(s, paths) :: '\n' !in part
  {
    hide PathLine;
    forall part | part in PathLines(s, paths) ensures '\n' !in part {
      var i :| 0 <= i < |paths| && PathLines(s, paths)[i] == part;
      assert paths[i] in paths;
      PlainLine(s, paths[i]);
    }
  }

  lemma HeaderInjective(a: Status, b: Status)
    requires Plain(a) && Plain(b) && Header(a) == Header(b)
    ensures a.branch == b.branch && a.head == b.head
  {
    var x, y := Header(a), Header(b);
    assert x[0][7..] == a.branch.GetOr("") && y[0][7..] == b.branch.GetOr("");
    assert x[1][5..] == a.head.GetOr("") && y[1][5..] == b.head.GetOr("");
  }

  lemma SamePaths(a: Status, b: Status, p: seq<string>, q: seq<string>)
    requires Plain(a) && Plain(b) && Lists(p, a) && Lists(q, b)
    requires (forall x | x in p :: x in a.dirty) && (forall x | x in q :: x in b.dirty)
    requires PathLines(a, p) == PathLines(b, q)
    ensures p == q && a.dirty == b.dirty && forall x | x in a.dirty :: Churn(a, x) == Churn(b, x)
  {
    hide PathLine, Churn;
    forall i | 0 <= i < |p| ensures p[i] == q[i] && a.dirty[p[i]] == b.dirty[q[i]] && Churn(a, p[i]) == Churn(b, q[i]) {
      assert p[i] in p && q[i] in q;
      assert PathLines(a, p)[i] == PathLine(a, p[i]) && PathLines(b, q)[i] == PathLine(b, q[i]);
      LineInjective(a, b, p[i], q[i]);
    }
    forall x | x in a.dirty ensures x in b.dirty && a.dirty[x] == b.dirty[x] && Churn(a, x) == Churn(b, x) {
      assert x in Members(p);
      var i :| 0 <= i < |p| && p[i] == x;
    }
  }

  /** A fingerprint says exactly what the stored state of a plain status shows. */
  lemma FingerprintExactly(a: Status, b: Status, f: string, g: string)
    requires Plain(a) && Plain(b) && IsFingerprint(a, f) && IsFingerprint(b, g)
    ensures f == g <==> Same(a, b)
  {
    hide Plain, PathLine, Header, Churn;
    var p :| Lists(p, a) && (forall x | x in p :: x in a.dirty) && f == Text.Join(Header(a) + PathLines(a, p), '\n');
    var q :| Lists(q, b) && (forall x | x in q :: x in b.dirty) && g == Text.Join(Header(b) + PathLines(b, q), '\n');
    var x, y := Header(a) + PathLines(a, p), Header(b) + PathLines(b, q);
    HeaderSize(a);
    HeaderSize(b);
    if f == g {
      PlainParts(a, p);
      PlainParts(b, q);
      Text.JoinInjective(x, y, '\n');
      assert x[..2] == Header(a) && y[..2] == Header(b);
      assert x[2..] == PathLines(a, p) && y[2..] == PathLines(b, q);
      HeaderInjective(a, b);
      SamePaths(a, b, p, q);
    }
    if Same(a, b) {
      SortedUnique(p, q);
      SameHeader(a, b);
      forall i | 0 <= i < |p| ensures PathLines(a, p)[i] == PathLines(b, q)[i] {
        assert p[i] in p;
        SameLine(a, b, p[i]);
      }
      assert PathLines(a, p) == PathLines(b, q);
    }
  }

  lemma HeaderSize(s: Status)
    ensures |Header(s)| == 2
  {
  }

  lemma SameHeader(a: Status, b: Status)
    requires a.branch == b.branch && a.head == b.head
    ensures Header(a) == Header(b)
  {
  }

  lemma SameLine(a: Status, b: Status, p: string)
    requires p in a.dirty && p in b.dirty && a.dirty[p] == b.dirty[p] && Churn(a, p) == Churn(b, p)
    ensures PathLine(a, p) == PathLine(b, p)
  {
  }

  /******* What a newline in a path does *******/

  /** The line of a path with a newline is the lines of two paths. */
  lemma MergedLine(p: string, c: string, x: DiffStat, q: string, d: string, y: DiffStat)
    ensures LineOf(LineOf(p, c, x) + "\n" + q, d, y) == LineOf(p, c, x) + "\n" + LineOf(q, d, y)
  {
    hide Decimal.Render;
  }

  lemma {:induction false} JoinMerged(front: seq<string>, u: string, v: string)
    ensures Text.Join(front + [u, v], '\n') == Text.Join(front + [u + "\n" + v], '\n')
  {
    if front == [] {
      assert front + [u, v] == [u, v] && [u, v][1..] == [v];
      assert front + [u + "\n" + v] == [u + "\n" + v];
    } else {
      JoinMerged(front[1..], u, v);
      assert (front + [u, v])[1..] == front[1..] + [u, v];
      assert (front + [u + "\n" + v])[1..] == front[1..] + [u + "\n" + v];
    }
  }

  /** The status whose last two dirty paths are written as one. */
  function Merged(s: Status, p: string, q: string): Status
    requires p in s.dirty && q in s.dirty
  {
    var m := PathLine(s, p) + "\n" + q;
    s.(dirty := (s.dirty - {p, q})[m := s.dirty[q]], churn := s.churn[m := Churn(s, q)])
  }

  lemma MergedSorted(paths: seq<string>, m: string, rest: string)
    requires Sorted(paths) && |paths| >= 2 && rest != "" && m == paths[|paths| - 2] + rest
    ensures Sorted(paths[..|paths| - 2] + [m])
  {
    hide Before;
    var p := paths[|paths| - 2];
    PrefixBefore(p, rest);
    forall i | 0 <= i < |paths| - 2 ensures Before(paths[i], m) {
      BeforeTransitive(paths[i], p, m);
    }
  }

  lemma MergedLists(s: Status, paths: seq<string>)
    requires Plain(s) && Lists(paths, s) && |paths| >= 2
    ensures paths[|paths| - 2] in s.dirty && paths[|paths| - 1] in s.dirty
    ensures var p, q := paths[|paths| - 2], paths[|paths| - 1];
      Lists(paths[..|paths| - 2] + [PathLine(s, p) + "\n" + q], Merged(s, p, q))
  {
    hide Before, Decimal.Render, Churn;
    ListedAreDirty(paths, s);
    SortedHasNoRepeats(paths);
    var n, p, q := |paths| - 2, paths[|paths| - 2], paths[|paths| - 1];
    assert p in paths && q in paths;
    var m := PathLine(s, p) + "\n" + q;
    var rest := m[|p|..];
    assert m == p + rest;
    MergedSorted(paths, m, rest);
    var merged := paths[..n] + [m];
    MembersSnoc(paths[..n], m);
    assert paths == paths[..n] + [p] + [q];
    MembersSnoc(paths[..n] + [p], q);
    MembersSnoc(paths[..n], p);
    assert p !in paths[..n] && q !in paths[..n];
    assert Members(paths[..n]) == s.dirty.Keys - {p, q};
  }

  lemma NewlineShows(s: Status, p: string, q: string)
    requires Plain(s) && p in s.dirty && q in s.dirty
    ensures var m := PathLine(s, p) + "\n" + q; m !in s.dirty && '\n' in m
  {
    var m := PathLine(s, p) + "\n" + q;
    assert m[|PathLine(s, p)|] == '\n';
  }

  lemma OtherLine(s: Status, p: string, q: string, x: string)
    requires Plain(s) && p in s.dirty && q in s.dirty && x in s.dirty && x != p && x != q
    ensures x in Merged(s, p, q).dirty && PathLine(Merged(s, p, q), x) == PathLine(s, x)
  {
    NewlineShows(s, p, q);
    hide LineOf, Plain;
  }

  lemma LastLine(s: Status, p: string, q: string)
    requires p in s.dirty && q in s.dirty
    ensures var m := PathLine(s, p) + "\n" + q;
      m in Merged(s, p, q).dirty && PathLine(Merged(s, p, q), m) == PathLine(s, p) + "\n" + PathLine(s, q)
  {
    var m := PathLine(s, p) + "\n" + q;
    MergedLine(p, s.dirty[p], Churn(s, p), q, s.dirty[q], Churn(s, q));
    hide LineOf;
    assert Merged(s, p, q).dirty[m] == s.dirty[q] && Churn(Merged(s, p, q), m) == Churn(s, q);
  }

  lemma MergedLines(s: Status, front: seq<string>, p: string, q: string)
    requires Plain(s) && p in s.dirty && q in s.dirty && p !in front && q !in front
    requires forall x | x in front :: x in s.dirty
    ensures var m := PathLine(s, p) + "\n" + q;
      && (forall x | x in front + [p, q] :: x in s.dirty)
      && (forall x | x in front + [m] :: x in Merged(s, p, q).dirty)
      && PathLines(s, front + [p, q]) == PathLines(s, front) + [PathLine(s, p), PathLine(s, q)]
      && PathLines(Merged(s, p, q), front + [m]) == PathLines(s, front) + [PathLine(s, p) + "\n" + PathLine(s, q)]
  {
    hide PathLine, Merged, Plain;
    var m := PathLine(s, p) + "\n" + q;
    LastLine(s, p, q);
    forall x | x in front ensures x in Merged(s, p, q).dirty && PathLine(Merged(s, p, q), x) == PathLine(s, x) {
      OtherLine(s, p, q, x);
    }
    assert forall i | 0 <= i < |front| :: front[i] in front;
  }

  /** A fingerprint that pairs of lines and single lines with a newline share. */
  lemma PrintsAgree(s: Status, b: Status, front: seq<string>, p: string, q: string, m: string)
    requires Lists(front + [p, q], s) && Lists(front + [m], b) && Header(s) == Header(b)
    requires (forall x | x in front + [p, q] :: x in s.dirty) && (forall x | x in front + [m] :: x in b.dirty)
    requires exists lines, u, v ::
               PathLines(s, front + [p, q]) == lines + [u, v] && PathLines(b, front + [m]) == lines + [u + "\n" + v]
    ensures exists f :: IsFingerprint(s, f) && IsFingerprint(b, f)
  {
    hide PathLine, Header, PathLines, Lists;
    var lines, u, v :|
      PathLines(s, front + [p, q]) == lines + [u, v] && PathLines(b, front + [m]) == lines + [u + "\n" + v];
    var f := Text.Join(Header(s) + PathLines(s, front + [p, q]), '\n');
    JoinMerged(Header(s) + lines, u, v);
    assert Header(s) + (lines + [u, v]) == Header(s) + lines + [u, v];
    assert Header(s) + (lines + [u + "\n" + v]) == Header(s) + lines + [u + "\n" + v];
    assert f == Text.Join(Header(b) + PathLines(b, front + [m]), '\n');
    assert IsFingerprint(s, f) && IsFingerprint(b, f);
  }

  /** Every status with two dirty paths shares its fingerprint with one that shows something else. */
  lemma NewlinePathsCollide(s: Status) returns (b: Status, f: string)
    requires Plain(s) && |s.dirty| >= 2
    ensures PlainNames(b) && !Same(s, b) && IsFingerprint(s, f) && IsFingerprint(b, f)
  {
    hide PathLine, PathLines, Header, Before, Lists, IsFingerprint;
    var paths := Enumeration(s.dirty.Keys);
    SortedSize(paths);
    ListsEnumeration(s, paths);
    ListedAreDirty(paths, s);
    MergedLists(s, paths);
    var front, p, q := paths[..|paths| - 2], paths[|paths| - 2], paths[|paths| - 1];
    var m := PathLine(s, p) + "\n" + q;
    b := Merged(s, p, q);
    assert paths == front + [p, q];
    NoRepeatAtEnd(s, front, p, q);
    MergedLines(s, front, p, q);
    SameHeader(s, b);
    PrintsAgree(s, b, front, p, q, m);
    f :| IsFingerprint(s, f) && IsFingerprint(b, f);
    MergedDiffers(s, p, q);
  }

  lemma ListsEnumeration(s: Status, paths: seq<string>)
    requires Sorted(paths) && Members(paths) == s.dirty.Keys
    ensures Lists(paths, s)
  {
  }

  lemma NoRepeatAtEnd(s: Status, front: seq<string>, p: string, q: string)
    requires Lists(front + [p, q], s)
    ensures p !in front && q !in front && forall x | x in front :: x in s.dirty
  {
    hide Before;
    var paths := front + [p, q];
    SortedHasNoRepeats(paths);
    ListedAreDirty(paths, s);
    assert forall i | 0 <= i < |front| :: paths[i] == front[i] && paths[i] in paths;
    assert paths[|front|] == p && paths[|front| + 1] == q;
  }

  lemma MergedDiffers(s: Status, p: string, q: string)
    requires Plain(s) && p in s.dirty && q in s.dirty
    ensures PlainNames(Merged(s, p, q)) && !Same(s, Merged(s, p, q))
  {
    hide PathLine;
    NewlineShows(s, p, q);
  }

  lemma PartsCounted(s: Status, f: string) returns (paths: seq<string>, parts: seq<string>)
    requires IsFingerprint(s, f)
    ensures Lists(paths, s) && (forall p | p in paths :: p in s.dirty)
    ensures parts == Header(s) + PathLines(s, paths) && |parts| == |s.dirty| + 2
    ensures Text.CountOf(f, '\n') == |s.dirty| + 1 + Text.TotalOf(parts, '\n')
  {
    hide Header, PathLine;
    paths :| Lists(paths, s) && (forall p | p in paths :: p in s.dirty) &&
             f == Text.Join(Header(s) + PathLines(s, paths), '\n');
    parts := Header(s) + PathLines(s, paths);
    HeaderSize(s);
    SortedSize(paths);
    Text.JoinCount(parts, '\n');
  }

  /** A plain status has as many newlines as lines end; one with a newline in a path has more. */
  lemma NewlinesTell(s: Status, f: string)
    requires PlainNames(s) && IsFingerprint(s, f)
    ensures Plain(s) ==> Text.CountOf(f, '\n') == |s.dirty| + 1
    ensures !Plain(s) ==> Text.CountOf(f, '\n') >= 3
  {
    hide Header, PathLine;
    var paths, parts := PartsCounted(s, f);
    if Plain(s) {
      PlainParts(s, paths);
      Text.NoneCounted(parts, '\n');
    } else {
      var p :| p in s.dirty && '\n' in p;
      NewlineCounted(s, paths, p);
      assert |s.dirty| != 0;
    }
  }

  lemma NewlineCounted(s: Status, paths: seq<string>, p: string)
    requires Lists(paths, s) && (forall x | x in paths :: x in s.dirty) && p in s.dirty && '\n' in p
    ensures Text.TotalOf(Header(s) + PathLines(s, paths), '\n') >= 1
  {
    hide Header, PathLine;
    assert p in Members(paths);
    var i :| 0 <= i < |paths| && paths[i] == p;
    HeaderSize(s);
    PathShows(s, p);
    Text.SomeCounted(Header(s) + PathLines(s, paths), i + 2, '\n');
  }

  lemma PathShows(s: Status, p: string)
    requires p in s.dirty && '\n' in p
    ensures '\n' in PathLine(s, p)
  {
    var i :| 0 <= i < |p| && p[i] == '\n';
    assert PathLine(s, p)[i] == '\n';
  }

  /** Some other status, plain but for newlines in paths, has the same fingerprint. */
  ghost predicate Collides(s: Status) {
    exists b, f :: PlainNames(b) && !Same(s, b) && IsFingerprint(s, f) && IsFingerprint(b, f)
  }

  /** What excluding newlines from paths buys: exactly the statuses with two dirty paths or more would collide. */
  lemma CollidesExactly(s: Status)
    requires Plain(s)
    ensures Collides(s) <==> |s.dirty| >= 2
  {
    hide Plain, PlainNames, IsFingerprint, Same;
    if |s.dirty| >= 2 {
      var b, f := NewlinePathsCollide(s);
    }
    if Collides(s) {
      var b, f :| PlainNames(b) && !Same(s, b) && IsFingerprint(s, f) && IsFingerprint(b, f);
      PlainIsNames(s);
      NewlinesTell(s, f);
      NewlinesTell(b, f);
      if Plain(b) {
        FingerprintExactly(s, b, f, f);
      }
    }
  }

  lemma PlainIsNames(s: Status)
    requires Plain(s)
    ensures PlainNames(s)
  {
  }

  /******* The stored row, and runs of reconciles *******/

  datatype DirtyRow = DirtyRow(code: string, churn: Option<DiffStat>)

  datatype Stored = Stored(
    revision: int, fingerprint: string, branch: Option<string>, head: Option<string>, dirty: map<string, DirtyRow>,
    details: Details)

  /** A row as it is first inserted. */
  const UNREAD := Stored(0, "", None, None, map[], Details(0, 0, None, None, []))

  function DirtyRows(s: Status): map<string, DirtyRow> {
    map p | p in s.dirty :: DirtyRow(s.dirty[p], if p in s.churn then Some(s.churn[p]) else None)
  }

  function Reconciled(was: Stored, s: Status, f: string): Stored {
    Stored(if was.fingerprint != f then was.revision + 1 else was.revision, f, s.branch, s.head, DirtyRows(s),
           s.details)
  }

  class RepoRow {
    var revision: int
    var fingerprint: string
    var branch: Option<string>
    var head: Option<string>
    var dirty: map<string, DirtyRow>
    var details: Details

    function Contents(): Stored
      reads this
    {
      Stored(revision, fingerprint, branch, head, dirty, details)
    }

    constructor ()
      ensures Contents() == UNREAD
    {
      revision, fingerprint, branch, head, dirty := 0, "", None, None, map[];
      details := UNREAD.details;
    }

    /** `DELETE` of the old rows, then one `INSERT` a dirty path. */
    method ReplaceDirtyRows(s: Status)
      modifies this`dirty
      ensures dirty == DirtyRows(s)
    {
      dirty := map[];
      var todo := s.dirty.Keys;
      while todo != {}
        invariant todo <= s.dirty.Keys
        invariant dirty == map p | p in s.dirty.Keys - todo :: DirtyRows(s)[p]
        decreases todo
      {
        var p :| p in todo;
        todo := todo - {p};
        dirty := dirty[p := DirtyRow(s.dirty[p], if p in s.churn then Some(s.churn[p]) else None)];
      }
    }

    /** One committed reconcile: the dirty rows are replaced, the revision moves with the fingerprint. */
    method Reconcile(s: Status) returns (f: string)
      modifies this
      ensures IsFingerprint(s, f) && Contents() == Reconciled(old(Contents()), s, f)
      ensures fingerprint == f && branch == s.branch && head == s.head && details == s.details
      ensures revision == old(revision) + if f == old(fingerprint) then 0 else 1
      ensures dirty.Keys == s.dirty.Keys
      ensures forall p | p in dirty ::
                && dirty[p].code == s.dirty[p]
                && (p in s.churn ==> dirty[p].churn == Some(s.churn[p])) && (p !in s.churn ==> dirty[p].churn == None)
    {
      hide IsFingerprint;
      f := StatusFingerprint(s);
      ReplaceDirtyRows(s);
      if fingerprint != f {
        revision := revision + 1;
      }
      fingerprint, branch, head, details := f, s.branch, s.head, s.details;
    }
  }

  /** Fingerprint `i` is not the one before; the one before the first is empty. */
  predicate Moves(prints: seq<string>, i: nat) {
    i < |prints| && (if i == 0 then prints[i] != "" else prints[i] != prints[i - 1])
  }

  /**
   What the last of some reconciles committed is what the last reading found; the revision
   counts the reconciles whose fingerprint was not the one before.
   */
  lemma CommittedExactly(seen: seq<Status>, prints: seq<string>, n: nat)
    requires |seen| == |prints| && 0 < n <= |seen|
    ensures var row, s := Committed(seen, prints, n), seen[n - 1];
      && row.branch == s.branch && row.head == s.head && row.details == s.details && row.fingerprint == prints[n - 1]
      && row.dirty.Keys == s.dirty.Keys
      && (forall p | p in s.dirty ::
            && row.dirty[p].code == s.dirty[p]
            && (p in s.churn ==> row.dirty[p].churn == Some(s.churn[p])) && (p !in s.churn ==> row.dirty[p].churn == None))
      && row.revision == |set i: nat | i < n && Moves(prints, i)|
  {
    MovesCounted(seen, prints, n);
  }

  lemma {:induction false} MovesCounted(seen: seq<Status>, prints: seq<string>, n: nat)
    requires |seen| == |prints| && n <= |seen|
    ensures Committed(seen, prints, n).revision ==
            |set i: nat | i < n && Moves(prints, i)|
    ensures Committed(seen, prints, n).fingerprint == if n == 0 then "" else prints[n - 1]
  {
    hide DirtyRows;
    var now := set i: nat | i < n && Moves(prints, i);
    if n == 0 {
      assert now == {};
    } else {
      MovesCounted(seen, prints, n - 1);
      var before := set i: nat | i < n - 1 && Moves(prints, i);
      assert now == if Moves(prints, n - 1) then before + {n - 1} else before;
    }
  }

  /** A history of readings and the fingerprints they had. A failed reading commits nothing. */
  ghost predicate IsHistory(seen: seq<Status>, prints: seq<string>) {
    |seen| == |prints| && forall i | 0 <= i < |seen| :: Plain(seen[i]) && IsFingerprint(seen[i], prints[i])
  }

  function Committed(seen: seq<Status>, prints: seq<string>, n: nat): Stored
    requires |seen| == |prints| && n <= |seen|
  {
    if n == 0 then UNREAD else Reconciled(Committed(seen, prints, n - 1), seen[n - 1], prints[n - 1])
  }

  /** The same branch, head and rows. */
  ghost predicate ShowsSame(a: Stored, b: Stored) { a.branch == b.branch && a.head == b.head && RowsSame(a, b) }

  /** What a client sees of the dirty paths, where missing churn reads as none. */
  ghost predicate RowsSame(a: Stored, b: Stored) {
    && a.dirty.Keys == b.dirty.Keys
    && forall p | p in a.dirty ::
         && a.dirty[p].code == b.dirty[p].code
         && a.dirty[p].churn.GetOr(DiffStat(0, 0)) == b.dirty[p].churn.GetOr(DiffStat(0, 0))
  }

  lemma PrintedIsNotEmpty(s: Status, f: string)
    requires IsFingerprint(s, f)
    ensures f != ""
  {
    var p :| Lists(p, s) && (forall x | x in p :: x in s.dirty) && f == Text.Join(Header(s) + PathLines(s, p), '\n');
    assert (Header(s) + PathLines(s, p))[0] == Header(s)[0];
  }

  /** The revision never falls, and between equal revisions the fingerprint stood still. */
  lemma {:induction false} RevisionRises(seen: seq<Status>, prints: seq<string>, i: nat, j: nat)
    requires IsHistory(seen, prints) && i <= j <= |seen|
    ensures Committed(seen, prints, i).revision <= Committed(seen, prints, j).revision
    ensures Committed(seen, prints, i).revision == Committed(seen, prints, j).revision ==>
              Committed(seen, prints, i).fingerprint == Committed(seen, prints, j).fingerprint
  {
    hide Plain, IsFingerprint;
    if i < j {
      RevisionRises(seen, prints, i, j - 1);
    }
  }

  /** The revision is a sound cache key: states with equal revisions show the same. */
  lemma RevisionIsKey(seen: seq<Status>, prints: seq<string>, i: nat, j: nat)
    requires IsHistory(seen, prints) && i <= j <= |seen|
    requires Committed(seen, prints, i).revision == Committed(seen, prints, j).revision
    ensures ShowsSame(Committed(seen, prints, i), Committed(seen, prints, j))
  {
    hide Plain, IsFingerprint, Churn;
    RevisionRises(seen, prints, i, j);
    if 0 < i < j {
      FingerprintExactly(seen[i - 1], seen[j - 1], prints[i - 1], prints[j - 1]);
      SameShows(seen[i - 1], seen[j - 1]);
    } else if i < j {
      PrintedIsNotEmpty(seen[j - 1], prints[j - 1]);
    }
  }

  /** From one reconcile to the next, the revision moves exactly when there is something new to show. */
  lemma RevisionMovesExactly(seen: seq<Status>, prints: seq<string>, i: nat)
    requires IsHistory(seen, prints) && 0 < i < |seen|
    ensures Committed(seen, prints, i + 1).revision == Committed(seen, prints, i).revision <==> Same(seen[i - 1], seen[i])
  {
    hide Plain, IsFingerprint, Churn;
    FingerprintExactly(seen[i - 1], seen[i], prints[i - 1], prints[i]);
  }

  lemma SameShows(a: Status, b: Status)
    requires Same(a, b)
    ensures forall p | p in a.dirty ::
              && DirtyRows(a)[p].code == DirtyRows(b)[p].code
              && DirtyRows(a)[p].churn.GetOr(DiffStat(0, 0)) == DirtyRows(b)[p].churn.GetOr(DiffStat(0, 0))
  {
    forall p | p in a.dirty
      ensures DirtyRows(a)[p].churn.GetOr(DiffStat(0, 0)) == DirtyRows(b)[p].churn.GetOr(DiffStat(0, 0))
    {
      assert Churn(a, p) == Churn(b, p);
    }
  }

  /******* The dirty paths as they are served *******/

  /**
   The dirty paths are served by two queries, the revision first. What state `i` and
   state `j` give together is right if some committed state has that revision and those rows.
   */
  ghost predicate RightlyServed(seen: seq<Status>, prints: seq<string>, i: nat, j: nat)
    requires |seen| == |prints| && i <= |seen| && j <= |seen|
  {
    exists k: nat ::
      k <= |seen| && Committed(seen, prints, k).revision == Committed(seen, prints, i).revision &&
      RowsSame(Committed(seen, prints, k), Committed(seen, prints, j))
  }

  lemma EqualRevisionsShowSame(seen: seq<Status>, prints: seq<string>, i: nat, j: nat)
    requires IsHistory(seen, prints) && i <= |seen| && j <= |seen|
    requires Committed(seen, prints, i).revision == Committed(seen, prints, j).revision
    ensures ShowsSame(Committed(seen, prints, i), Committed(seen, prints, j))
  {
    hide Committed, Plain, IsFingerprint;
    if i <= j {
      RevisionIsKey(seen, prints, i, j);
    } else {
      RevisionIsKey(seen, prints, j, i);
    }
  }

  /** Served together, a revision and rows are right exactly if the rows had not changed in between. */
  lemma ServedPair(seen: seq<Status>, prints: seq<string>, i: nat, j: nat)
    requires IsHistory(seen, prints) && i <= j <= |seen|
    ensures RightlyServed(seen, prints, i, j) <==> RowsSame(Committed(seen, prints, i), Committed(seen, prints, j))
    ensures forall k: nat | k <= |seen| &&
              Committed(seen, prints, k).revision == Committed(seen, prints, i).revision == Committed(seen, prints, j).revision ::
              ShowsSame(Committed(seen, prints, k), Committed(seen, prints, j))
  {
    hide Committed, Plain, IsFingerprint;
    if RightlyServed(seen, prints, i, j) {
      var k: nat :| k <= |seen| && Committed(seen, prints, k).revision == Committed(seen, prints, i).revision &&
                    RowsSame(Committed(seen, prints, k), Committed(seen, prints, j));
      EqualRevisionsShowSame(seen, prints, i, k);
    }
    forall k: nat | k <= |seen| &&
      Committed(seen, prints, k).revision == Committed(seen, prints, i).revision == Committed(seen, prints, j).revision
      ensures ShowsSame(Committed(seen, prints, k), Committed(seen, prints, j))
    {
      EqualRevisionsShowSame(seen, prints, k, j);
    }
  }

  /**
   With one reconcile between the queries: the state is still the one shown exactly if the
   revision stood still, and unless branch or head moved, the served pair is wrong exactly if not.
   */
  lemma ServedAcrossOne(seen: seq<Status>, prints: seq<string>, i: nat)
    requires IsHistory(seen, prints) && 0 < i < |seen|
    ensures var a, b := Committed(seen, prints, i), Committed(seen, prints, i + 1);
      && (ShowsSame(a, b) <==> a.revision == b.revision)
      && (a.branch == b.branch && a.head == b.head ==>
            (RightlyServed(seen, prints, i, i + 1) <==> a.revision == b.revision))
  {
    hide Plain, IsFingerprint, Churn, RightlyServed;
    ServedPair(seen, prints, i, i + 1);
    RevisionMovesExactly(seen, prints, i);
    ShowsSameExactly(Committed(seen, prints, i - 1), Committed(seen, prints, i), seen[i - 1], prints[i - 1],
                     seen[i], prints[i]);
  }

  lemma ShowsSameExactly(was: Stored, then_: Stored, s: Status, f: string, r: Status, g: string)
    ensures ShowsSame(Reconciled(was, s, f), Reconciled(then_, r, g)) <==> Same(s, r)
  {
    var a, b := Reconciled(was, s, f), Reconciled(then_, r, g);
    forall p | p in s.dirty ensures Churn(s, p) == a.dirty[p].churn.GetOr(DiffStat(0, 0)) && a.dirty[p].code == s.dirty[p] {
    }
    forall p | p in r.dirty ensures Churn(r, p) == b.dirty[p].churn.GetOr(DiffStat(0, 0)) && b.dirty[p].code == r.dirty[p] {
    }
    if ShowsSame(a, b) {
      assert a.dirty.Keys == s.dirty.Keys && b.dirty.Keys == r.dirty.Keys;
      assert forall p | p in s.dirty :: p in a.dirty;
    }
    if Same(s, r) {
      SameShows(s, r);
    }
  }

  /** State `k` shows what state `i` did. */
  ghost predicate StillShown(seen: seq<Status>, prints: seq<string>, i: nat, k: nat) {
    |seen| == |prints| && i <= |seen| && k <= |seen| &&
    ShowsSame(Committed(seen, prints, i), Committed(seen, prints, k))
  }

  /** The revision stands still over a stretch exactly if everything in it shows the same. */
  lemma RevisionStandsExactly(seen: seq<Status>, prints: seq<string>, i: nat, j: nat)
    requires IsHistory(seen, prints) && 0 < i <= j <= |seen|
    ensures Committed(seen, prints, i).revision == Committed(seen, prints, j).revision <==>
            forall k: nat | i <= k <= j :: StillShown(seen, prints, i, k)
  {
    hide Committed, Plain, IsFingerprint, ShowsSame;
    if Committed(seen, prints, i).revision == Committed(seen, prints, j).revision {
      forall k: nat | i <= k <= j ensures StillShown(seen, prints, i, k) {
        RevisionRises(seen, prints, i, k);
        RevisionRises(seen, prints, k, j);
        RevisionIsKey(seen, prints, i, k);
      }
    }
    if forall k: nat | i <= k <= j :: StillShown(seen, prints, i, k) {
      StandsWhileSame(seen, prints, i, j);
    }
  }

  lemma {:induction false} StandsWhileSame(seen: seq<Status>, prints: seq<string>, i: nat, j: nat)
    requires IsHistory(seen, prints) && 0 < i <= j <= |seen|
    requires forall k: nat | i <= k <= j :: StillShown(seen, prints, i, k)
    ensures Committed(seen, prints, i).revision == Committed(seen, prints, j).revision
  {
    hide Committed, Plain, IsFingerprint;
    if i < j {
      StandsWhileSame(seen, prints, i, j - 1);
      assert StillShown(seen, prints, i, j - 1) && StillShown(seen, prints, i, j);
      ServedAcrossOne(seen, prints, j - 1);
    }
  }
}
