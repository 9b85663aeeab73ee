/** File names for library entries: how a name becomes a slug, and how a free slug is found. */
module Slugs {
  import opened Wrappers
  import opened Text
  import Decimal

  predicate SlugChar(c: char) { IsAlphanumeric(c) || c in "-_." }

  /** The kept characters, with white space as dashes. */
  function Mapped(s: string): (r: string)
    ensures forall c | c in r :: SlugChar(c)
  {
    if s == "" then ""
    else
      Mapped(s[..|s| - 1]) +
      (if SlugChar(s[|s| - 1]) then [s[|s| - 1]] else if IsWhitespace(s[|s| - 1]) then "-" else "")
  }

  predicate HasDouble(s: string) { exists i :: 0 <= i < |s| - 1 && s[i] == '-' && s[i + 1] == '-' }

  /** `s.replace("--", "-")`: one pass from the left. */
  function HalveDashes(s: string): (r: string)
    decreases |s|
    ensures |r| <= |s|
  {
    if |s| >= 2 && s[0] == '-' && s[1] == '-' then "-" + HalveDashes(s[2..])
    else if s == "" then ""
    else [s[0]] + HalveDashes(s[1..])
  }

  /** Every run of dashes as one dash. */
  function Squeezed(s: string): string {
    if |s| >= 2 && s[0] == '-' && s[1] == '-' then Squeezed(s[1..])
    else if s == "" then ""
    else [s[0]] + Squeezed(s[1..])
  }

  function TrimDashes(s: string): string
    decreases |s|
  {
    if s != "" && s[0] == '-' then TrimDashes(s[1..])
    else if s != "" && s[|s| - 1] == '-' then TrimDashes(s[..|s| - 1])
    else s
  }

  function Sanitised(raw: string): Option<string> {
    var slug := TrimDashes(Squeezed(Mapped(Trim(raw))));
    if Trim(raw) == "" || slug == "" || slug[0] == '.' then None else Some(slug)
  }

  predicate IsSlug(s: string) {
    && s != "" && (forall c | c in s :: SlugChar(c))
    && !HasDouble(s) && s[0] != '-' && s[|s| - 1] != '-' && s[0] != '.'
  }

  /******* The collapsing loop *******/

  lemma DoubleAhead(s: string)
    requires |s| >= 1
    ensures HasDouble(s) <==> (|s| >= 2 && s[0] == '-' && s[1] == '-') || HasDouble(s[1..])
  {
    if HasDouble(s) && !(|s| >= 2 && s[0] == '-' && s[1] == '-') {
      var i :| 0 <= i < |s| - 1 && s[i] == '-' && s[i + 1] == '-';
      assert s[1..][i - 1] == '-' && s[1..][i] == '-';
    }
    if HasDouble(s[1..]) {
      var i :| 0 <= i < |s[1..]| - 1 && s[1..][i] == '-' && s[1..][i + 1] == '-';
      assert s[i + 1] == '-' && s[i + 2] == '-';
    }
  }

  /** A pass shortens a text that has a double dash. */
  lemma {:induction false} HalvingShortens(s: string)
    requires HasDouble(s)
    ensures |HalveDashes(s)| < |s|
    decreases |s|
  {
    if !(|s| >= 2 && s[0] == '-' && s[1] == '-') {
      DoubleAhead(s);
      HalvingShortens(s[1..]);
    }
  }

  lemma HalvedStart(s: string)
    ensures HalveDashes(s) == "" <==> s == ""
    ensures s != "" ==> HalveDashes(s)[0] == s[0]
  {
  }

  lemma SqueezeDash(s: string)
    ensures Squeezed("-" + s) == if s != "" && s[0] == '-' then Squeezed(s) else "-" + Squeezed(s)
  {
    assert ("-" + s)[1..] == s;
  }

  lemma SqueezeOther(c: char, s: string)
    requires c != '-'
    ensures Squeezed([c] + s) == [c] + Squeezed(s)
  {
    assert ([c] + s)[1..] == s;
  }

  /** A pass does not change what the text squeezes to. */
  lemma {:induction false} HalvingKeepsSqueezed(s: string)
    ensures Squeezed(HalveDashes(s)) == Squeezed(s)
    decreases |s|
  {
    if |s| >= 2 && s[0] == '-' && s[1] == '-' {
      HalvingKeepsSqueezed(s[2..]);
      HalvedStart(s[2..]);
      assert s[1..] == "-" + s[2..];
      SqueezeDash(HalveDashes(s[2..]));
      SqueezeDash(s[2..]);
    } else if s != "" {
      HalvingKeepsSqueezed(s[1..]);
      HalvedStart(s[1..]);
      assert s == [s[0]] + s[1..];
      if s[0] == '-' {
        SqueezeDash(HalveDashes(s[1..]));
        SqueezeDash(s[1..]);
      } else {
        SqueezeOther(s[0], HalveDashes(s[1..]));
        SqueezeOther(s[0], s[1..]);
      }
    }
  }

  lemma {:induction false} SqueezedIsSingle(s: string)
    ensures !HasDouble(Squeezed(s))
    ensures !HasDouble(s) ==> Squeezed(s) == s
    ensures forall c | c in Squeezed(s) :: c in s
    ensures s != "" ==> Squeezed(s) != "" && Squeezed(s)[0] == s[0]
  {
    if s != "" {
      DoubleAhead(s);
      SqueezedIsSingle(s[1..]);
      if !(|s| >= 2 && s[0] == '-' && s[1] == '-') {
        DoubleAhead(Squeezed(s));
        assert Squeezed(s)[1..] == Squeezed(s[1..]);
        assert [s[0]] + s[1..] == s;
      }
    }
  }

  lemma SliceIsSingle(s: string, i: nat, j: nat)
    requires i <= j <= |s| && !HasDouble(s)
    ensures !HasDouble(s[i..j])
  {
  }

  lemma {:induction false} TrimDashesEnds(s: string)
    ensures var r := TrimDashes(s); r != "" ==> r[0] != '-' && r[|r| - 1] != '-'
    ensures !HasDouble(s) ==> !HasDouble(TrimDashes(s))
    ensures forall c | c in TrimDashes(s) :: c in s
    ensures s != "" && s[0] != '-' && s[|s| - 1] != '-' ==> TrimDashes(s) == s
    decreases |s|
  {
    hide HasDouble;
    if s != "" && s[0] == '-' {
      TrimDashesEnds(s[1..]);
      if !HasDouble(s) {
        SliceIsSingle(s, 1, |s|);
        assert s[1..|s|] == s[1..];
      }
    } else if s != "" && s[|s| - 1] == '-' {
      TrimDashesEnds(s[..|s| - 1]);
      if !HasDouble(s) {
        SliceIsSingle(s, 0, |s| - 1);
        assert s[0..|s| - 1] == s[..|s| - 1];
      }
    }
  }

  lemma MappedNext(s: string, c: char)
    ensures Mapped(s + [c]) == Mapped(s) + if SlugChar(c) then [c] else if IsWhitespace(c) then "-" else ""
    ensures Mapped("") == ""
  {
    hide SlugChar, IsWhitespace;
    assert (s + [c])[..|s|] == s;
  }

  lemma {:induction false} MappedSlug(s: string)
    requires forall c | c in s :: SlugChar(c)
    ensures Mapped(s) == s
  {
    hide SlugChar, IsWhitespace, Mapped;
    MappedNext("", 'a');
    if s != "" {
      var front, last := s[..|s| - 1], s[|s| - 1];
      MappedSlug(front);
      MappedNext(front, last);
      assert s == front + [last] && last in s;
    }
  }

  lemma SlugIsTrimmed(s: string)
    requires s != "" && forall c | c in s :: SlugChar(c)
    ensures IsTrimmed(s)
  {
    assert s[0] in s && s[|s| - 1] in s;
  }

  /** Sanitising gives slugs, leaves slugs alone, and so gives every slug there is. */
  lemma SanitisedExactly(raw: string)
    ensures Sanitised(raw).Some? ==> IsSlug(Sanitised(raw).value)
    ensures IsSlug(raw) <==> Sanitised(raw) == Some(raw)
    ensures Sanitised(raw).Some? ==> Sanitised(Sanitised(raw).value) == Sanitised(raw)
  {
    hide HasDouble, Squeezed, TrimDashes, TrimStart, TrimEnd, SlugChar, Mapped;
    SanitisedIsSlug(raw);
    if IsSlug(raw) {
      SlugIsSanitised(raw);
    }
    if Sanitised(raw).Some? {
      SlugIsSanitised(Sanitised(raw).value);
    }
  }

  lemma SanitisedIsSlug(raw: string)
    ensures Sanitised(raw).Some? ==> IsSlug(Sanitised(raw).value)
  {
    hide HasDouble, Squeezed, TrimDashes, TrimStart, TrimEnd, SlugChar;
    var s := Squeezed(Mapped(Trim(raw)));
    SqueezedIsSingle(Mapped(Trim(raw)));
    TrimDashesEnds(s);
  }

  lemma SlugIsSanitised(s: string)
    requires IsSlug(s)
    ensures Sanitised(s) == Some(s)
  {
    hide HasDouble, Squeezed, TrimDashes, TrimStart, TrimEnd, SlugChar;
    SlugIsTrimmed(s);
    TrimIsTrimmed(s);
    MappedSlug(s);
    SqueezedIsSingle(s);
    TrimDashesEnds(s);
  }

  method SanitiseSlug(raw: string) returns (slug: Option<string>)
    ensures slug == Sanitised(raw)
    ensures slug.Some? ==> IsSlug(slug.value)
  {
    hide HasDouble, Squeezed, TrimDashes, TrimStart, TrimEnd, SlugChar, HalveDashes, IsWhitespace;
    SanitisedIsSlug(raw);
    var trimmed := Trim(raw);
    if trimmed == "" {
      return None;
    }
    var out := "";
    for i := 0 to |trimmed|
      invariant out == Mapped(trimmed[..i])
    {
      assert trimmed[..i + 1][..i] == trimmed[..i];
      if SlugChar(trimmed[i]) {
        out := out + [trimmed[i]];
      } else if IsWhitespace(trimmed[i]) {
        out := out + "-";
      }
    }
    assert trimmed[..|trimmed|] == trimmed;
    while HasDouble(out)
      invariant Squeezed(out) == Squeezed(Mapped(trimmed))
      decreases |out|
    {
      HalvingShortens(out);
      HalvingKeepsSqueezed(out);
      out := HalveDashes(out);
    }
    SqueezedIsSingle(out);
    out := TrimDashes(out);
    if out == "" || out[0] == '.' {
      return None;
    }
    return Some(out);
  }

  /******* A free slug *******/

  function Candidate(desired: string, suffix: nat): string { desired + "-" + Decimal.Render(suffix) }

  lemma CandidateIsSlug(desired: string, suffix: nat)
    requires IsSlug(desired)
    ensures IsSlug(Candidate(desired, suffix))
  {
    hide Decimal.Render;
    var digits := Decimal.Render(suffix);
    var s := Candidate(desired, suffix);
    assert forall i | 0 <= i < |digits| :: digits[i] in digits;
    forall i | 0 <= i < |s| - 1 ensures s[i] != '-' || s[i + 1] != '-' {
      if i + 1 < |desired| {
        assert s[i] == desired[i] && s[i + 1] == desired[i + 1];
      } else if i >= |desired| {
        assert s[i + 1] == digits[i - |desired|];
      }
    }
    assert s[0] == desired[0] && s[|s| - 1] == digits[|digits| - 1];
  }

  lemma CandidatesDiffer(desired: string, m: nat, n: nat)
    requires Candidate(desired, m) == Candidate(desired, n)
    ensures m == n
  {
    var k := |desired| + 1;
    assert Candidate(desired, m)[k..] == Decimal.Render(m) && Candidate(desired, n)[k..] == Decimal.Render(n);
    Decimal.RenderInjective(m, n);
  }

  /** The candidates tried before `suffix`. */
  function Tried(desired: string, suffix: nat): set<string>
    requires suffix >= 2
  {
    set n | 2 <= n < suffix :: Candidate(desired, n)
  }

  lemma {:induction false} TriedCount(desired: string, suffix: nat)
    requires suffix >= 2
    ensures |Tried(desired, suffix)| == suffix - 2
  {
    hide Candidate;
    if suffix == 2 {
      assert Tried(desired, 2) == {};
    } else {
      TriedCount(desired, suffix - 1);
      forall n | 2 <= n < suffix - 1 ensures Candidate(desired, n) != Candidate(desired, suffix - 1) {
        if Candidate(desired, n) == Candidate(desired, suffix - 1) {
          CandidatesDiffer(desired, n, suffix - 1);
        }
      }
      assert Tried(desired, suffix) == Tried(desired, suffix - 1) + {Candidate(desired, suffix - 1)};
    }
  }

  /** The wanted slug with the number `n`; those with the numbers from 2 up to it are taken. */
  ghost predicate FirstFree(taken: set<string>, desired: string, slug: string, n: nat) {
    && n >= 2 && slug == desired + "-" + Decimal.Render(n)
    && forall m | 2 <= m < n :: desired + "-" + Decimal.Render(m) in taken
  }

  /** The wanted slug if it is free, or else the first free one with a number added. */
  method NextAvailableSlug(taken: set<string>, desired: string) returns (slug: string)
    ensures slug !in taken
    ensures desired !in taken ==> slug == desired
    ensures desired in taken ==>
              exists n: nat :: FirstFree(taken, desired, slug, n)
    ensures IsSlug(desired) ==> IsSlug(slug)
  {
    hide Decimal.Render, IsSlug;
    if desired !in taken {
      return desired;
    }
    var suffix := 2;
    while Candidate(desired, suffix) in taken
      invariant suffix >= 2 && forall m | 2 <= m < suffix :: Candidate(desired, m) in taken
      decreases |taken| + 2 - suffix
    {
      TriedCount(desired, suffix);
      SubsetSize(Tried(desired, suffix), taken);
      suffix := suffix + 1;
    }
    if IsSlug(desired) {
      CandidateIsSlug(desired, suffix);
    }
    forall m | 2 <= m < suffix ensures desired + "-" + Decimal.Render(m) in taken {
      assert Candidate(desired, m) in taken;
    }
    assert FirstFree(taken, desired, Candidate(desired, suffix), suffix);
    return Candidate(desired, suffix);
  }
}
