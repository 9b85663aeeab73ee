/**
 What a slug is made of: the words of the name, joined by dashes. A word is a run of
 letters, digits, underscores and dots; white space and dashes end it, and characters
 that are neither are left out of it.
 */
module SlugWords {
  import opened Wrappers
  import opened Text
  import opened Slugs

  predicate InWord(c: char) {
    'a' <= c <= 'z' || 'A' <= c <= 'Z' || '0' <= c <= '9' || c == '_' || c == '.'
  }

  predicate EndsWord(c: char) { c == '-' || IsWhitespace(c) }

  function Closed(word: string): seq<string> { if word == "" then [] else [word] }

  /** The words of `word + s`, where `word` is under way. */
  function Words(s: string, word: string): seq<string> {
    if s == "" then Closed(word)
    else if InWord(s[0]) then Words(s[1..], word + [s[0]])
    else if EndsWord(s[0]) then Closed(word) + Words(s[1..], "")
    else Words(s[1..], word)
  }

  predicate IsWord(word: string) { word != "" && forall c | c in word :: InWord(c) }

  lemma {:induction false} WordsAreWords(s: string, word: string)
    requires word == "" || IsWord(word)
    ensures forall w | w in Words(s, word) :: IsWord(w)
  {
    hide InWord, EndsWord;
    if s != "" {
      if InWord(s[0]) {
        WordsAreWords(s[1..], word + [s[0]]);
      } else if EndsWord(s[0]) {
        WordsAreWords(s[1..], "");
      } else {
        WordsAreWords(s[1..], word);
      }
    }
  }

  /******* Only words and dashes *******/

  lemma CharsApart(c: char)
    ensures InWord(c) ==> !EndsWord(c) && c != '-' && SlugChar(c) && !IsWhitespace(c)
    ensures SlugChar(c) <==> InWord(c) || c == '-'
    ensures EndsWord('-')
  {
  }

  lemma {:induction false} MappedConcat(a: string, b: string)
    ensures Mapped(a + b) == Mapped(a) + Mapped(b)
  {
    hide SlugChar, IsWhitespace, Mapped;
    if b == "" {
      MappedNext("", 'a');
      assert a + b == a && Mapped(a) + "" == Mapped(a);
    } else {
      var front, c := b[..|b| - 1], b[|b| - 1];
      MappedConcat(a, front);
      MappedNext(a + front, c);
      MappedNext(front, c);
      assert a + front + [c] == a + b && front + [c] == b;
    }
  }

  lemma MappedOne(c: char)
    ensures Mapped([c]) == if SlugChar(c) then [c] else if IsWhitespace(c) then "-" else ""
  {
    hide SlugChar, IsWhitespace;
    assert [c][..0] == "";
  }

  lemma WordsCons(c: char, rest: string, word: string)
    ensures Words([c] + rest, word) ==
            if InWord(c) then Words(rest, word + [c])
            else if EndsWord(c) then Closed(word) + Words(rest, "")
            else Words(rest, word)
  {
    hide InWord, EndsWord;
    assert ([c] + rest)[1..] == rest;
  }

  /** Mapping the characters does not change the words. */
  lemma {:induction false} MappedWords(s: string, word: string)
    ensures Words(Mapped(s), word) == Words(s, word)
  {
    hide InWord, EndsWord, SlugChar, IsWhitespace, Mapped;
    if s == "" {
      assert Mapped("") == "" by { MappedNext("", 'a'); }
    } else {
      var c, rest := s[0], s[1..];
      assert s == [c] + rest;
      MappedConcat([c], rest);
      MappedOne(c);
      CharsApart(c);
      WordsCons(c, Mapped(rest), word);
      WordsCons('-', Mapped(rest), word);
      CharsApart('-');
      MappedWords(rest, word + [c]);
      MappedWords(rest, "");
      MappedWords(rest, word);
      EndsExactly(c);
      assert "" + Mapped(rest) == Mapped(rest);
      assert "-" == ['-'];
    }
  }

  lemma EndsExactly(c: char)
    ensures EndsWord(c) <==> c == '-' || IsWhitespace(c)
    ensures !InWord('-')
  {
  }

  /** White space around a text has no words and breaks none. */
  lemma {:induction false} BlankAround(a: string, s: string, b: string)
    requires IsBlank(a) && IsBlank(b)
    ensures Words(a + s + b, "") == Words(s, "")
  {
    hide InWord, EndsWord, IsWhitespace;
    if a != "" {
      assert a + s + b == [a[0]] + (a[1..] + s + b);
      WordsCons(a[0], a[1..] + s + b, "");
      CharsApart(a[0]);
      EndsExactly(a[0]);
      BlankAround(a[1..], s, b);
    } else {
      assert a + s + b == s + b;
      BlankAfter(s, b, "");
    }
  }

  lemma {:induction false} BlankAfter(s: string, b: string, word: string)
    requires IsBlank(b)
    ensures Words(s + b, word) == Words(s, word)
  {
    hide InWord, EndsWord, IsWhitespace;
    if s != "" {
      assert s + b == [s[0]] + (s[1..] + b);
      WordsCons(s[0], s[1..] + b, word);
      BlankAfter(s[1..], b, word + [s[0]]);
      BlankAfter(s[1..], b, "");
      BlankAfter(s[1..], b, word);
    } else {
      assert s + b == b;
      BlankHasNoWords(b, word);
    }
  }

  lemma {:induction false} BlankHasNoWords(b: string, word: string)
    requires IsBlank(b)
    ensures Words(b, word) == Closed(word)
  {
    hide InWord, EndsWord, IsWhitespace;
    if b != "" {
      CharsApart(b[0]);
      EndsExactly(b[0]);
      BlankHasNoWords(b[1..], "");
      assert Closed(word) + [] == Closed(word);
    }
  }

  /******* Squeezing and trimming *******/

  /** A text of words and dashes only. */
  predicate Dashed(s: string) { forall c | c in s :: InWord(c) || c == '-' }

  /** A word under way continues with the first word of the rest, if no dash comes first. */
  lemma {:induction false} WordGoesOn(s: string, word: string)
    requires Dashed(s) && word != ""
    ensures s == "" || s[0] == '-' ==> Words(s, word) == [word] + Words(s, "")
    ensures s != "" && s[0] != '-' ==>
              Words(s, "") != [] && Words(s, word) == [word + Words(s, "")[0]] + Words(s, "")[1..]
  {
    hide InWord, EndsWord;
    EndsExactly('-');
    if s != "" && s[0] != '-' {
      var c, rest := s[0], s[1..];
      assert c in s && "" + [c] == [c];
      WordGoesOn(rest, word + [c]);
      WordGoesOn(rest, [c]);
      if rest != "" && rest[0] != '-' {
        assert word + [c] + Words(rest, "")[0] == word + ([c] + Words(rest, "")[0]);
      }
    } else if s != "" {
      assert s[0] == '-';
      CharsApart('-');
      EndsExactly('-');
    }
  }

  lemma JoinFirst(word: string, ws: seq<string>)
    ensures Join([word] + ws, '-') == if ws == [] then word else word + "-" + Join(ws, '-')
    ensures ws != [] ==> Join([word + ws[0]] + ws[1..], '-') == word + Join(ws, '-')
  {
    assert ([word] + ws)[1..] == ws;
    if ws != [] {
      assert ([word + ws[0]] + ws[1..])[1..] == ws[1..];
      if |ws| > 1 {
        assert word + ws[0] + ['-'] + Join(ws[1..], '-') == word + (ws[0] + ['-'] + Join(ws[1..], '-'));
      }
    }
  }

  function Lead(s: string): string { if s != "" && s[0] == '-' then "-" else "" }

  function Trail(s: string): string { if s != "" && s[|s| - 1] == '-' && Words(s, "") != [] then "-" else "" }

  /** Squeezed, a text of words and dashes is its words joined, with a dash before and after where it had some. */
  lemma {:induction false} SqueezedIsJoined(s: string)
    requires Dashed(s)
    ensures Squeezed(s) == Lead(s) + Join(Words(s, ""), '-') + Trail(s)
  {
    hide InWord, EndsWord;
    EndsExactly('-');
    CharsApart('-');
    if s == "" {
    } else {
      var c, rest := s[0], s[1..];
      assert Dashed(rest);
      SqueezedIsJoined(rest);
      if c == '-' {
        DashBefore(rest);
      } else {
        assert c in s && "" + [c] == [c];
        LetterBefore(c, rest);
        assert s == [c] + rest;
      }
    }
  }

  lemma DashBefore(rest: string)
    requires Squeezed(rest) == Lead(rest) + Join(Words(rest, ""), '-') + Trail(rest)
    ensures var s := "-" + rest; Squeezed(s) == Lead(s) + Join(Words(s, ""), '-') + Trail(s)
  {
    hide InWord, EndsWord, Squeezed, Words, Join, Lead, Trail;
    SqueezeDash(rest);
    DashAdds(rest);
    Regroup("-", Lead(rest), Join(Words(rest, ""), '-'), Trail(rest));
    var j, t := Join(Words(rest, ""), '-'), Trail(rest);
    assert "" + ("-" + "" + j) + t == "-" + j + t;
  }

  lemma DashAdds(rest: string)
    ensures Words("-" + rest, "") == Words(rest, "") && Trail("-" + rest) == Trail(rest)
    ensures Lead("-" + rest) == "-" && Lead(rest) == if rest != "" && rest[0] == '-' then "-" else ""
  {
    hide InWord, EndsWord, Words;
    EndsExactly('-');
    WordsCons('-', rest, "");
    assert "-" + rest == ['-'] + rest && [] + Words(rest, "") == Words(rest, "");
    NoWords();
  }

  lemma NoWords()
    ensures Words("", "") == [] && Join([], '-') == "" && Squeezed("") == ""
  {
  }

  lemma LetterBefore(c: char, rest: string)
    requires InWord(c) && c != '-' && Dashed(rest)
    requires Squeezed(rest) == Lead(rest) + Join(Words(rest, ""), '-') + Trail(rest)
    ensures var s := [c] + rest; Squeezed(s) == Lead(s) + Join(Words(s, ""), '-') + Trail(s)
  {
    hide InWord, EndsWord, Squeezed, Words, Join, Lead, Trail, Dashed;
    SqueezeOther(c, rest);
    JoinedLetter(c, rest);
    LeadLetter(c, rest);
    TrailLetter(c, rest);
    Regroup([c], Lead(rest), Join(Words(rest, ""), '-'), Trail(rest));
  }

  lemma Regroup(c: string, d: string, j: string, t: string)
    ensures c + (d + j + t) == "" + (c + d + j) + t
    ensures d == "" ==> c + d + j == c + j
    ensures j == "" && t == "" ==> c + (d + j + t) == "" + c + d
  {
  }

  lemma JoinedLetter(c: char, rest: string)
    requires InWord(c) && c != '-' && Dashed(rest)
    ensures var ws := Words(rest, "");
      Join(Words([c] + rest, ""), '-') ==
      if rest != "" && rest[0] != '-' then [c] + Join(ws, '-') else if ws == [] then [c] else [c] + "-" + Join(ws, '-')
    ensures rest != "" && rest[0] != '-' ==> Words(rest, "") != []
    ensures Words([c] + rest, "") != []
  {
    hide InWord, EndsWord, Words, Join;
    WordsCons(c, rest, "");
    assert "" + [c] == [c];
    WordGoesOn(rest, [c]);
    JoinFirst([c], Words(rest, ""));
  }

  lemma LeadLetter(c: char, rest: string)
    requires c != '-'
    ensures Lead([c] + rest) == "" && Lead(rest) == if rest != "" && rest[0] == '-' then "-" else ""
  {
  }

  lemma TrailLetter(c: char, rest: string)
    requires InWord(c) && c != '-' && Dashed(rest)
    ensures Words(rest, "") != [] ==> Trail([c] + rest) == Trail(rest)
    ensures Words(rest, "") == [] ==> Trail(rest) == "" && Trail([c] + rest) == Lead(rest) && Join(Words(rest, ""), '-') == ""
    ensures rest == "" ==> Words(rest, "") == []
  {
    hide InWord, EndsWord, Words, Join, Dashed;
    JoinedLetter(c, rest);
    NoWords();
    if Words(rest, "") == [] {
      AllDashes(rest);
      assert rest != "" ==> rest[|rest| - 1] in rest && rest[0] in rest;
    }
  }

  /** Without words there are only dashes. */
  lemma {:induction false} AllDashes(s: string)
    requires Dashed(s) && Words(s, "") == []
    ensures forall c | c in s :: c == '-'
  {
    hide InWord, EndsWord;
    EndsExactly('-');
    CharsApart('-');
    if s != "" {
      assert s[0] in s && s == [s[0]] + s[1..];
      if s[0] == '-' {
        AllDashes(s[1..]);
      } else {
        assert "" + [s[0]] == [s[0]];
        WordGoesOn(s[1..], [s[0]]);
      }
    }
  }

  lemma {:induction false} JoinedEnds(ws: seq<string>)
    requires ws != [] && forall w | w in ws :: IsWord(w)
    ensures var j := Join(ws, '-'); j != "" && ws[0] != "" && j[0] == ws[0][0] && InWord(j[0]) && InWord(j[|j| - 1])
  {
    hide InWord;
    assert ws[0] in ws && ws[0][0] in ws[0];
    if |ws| > 1 {
      JoinedEnds(ws[1..]);
    } else {
      assert ws[0][|ws[0]| - 1] in ws[0];
    }
  }

  lemma TrimmedDashes(j: string, lead: string, trail: string)
    requires j != "" && j[0] != '-' && j[|j| - 1] != '-'
    requires (lead == "" || lead == "-") && (trail == "" || trail == "-")
    ensures TrimDashes(lead + j + trail) == j
  {
    hide TrimDashes;
    TrimmedBehind(j, trail);
    TrimmedBefore(j + trail, lead);
    assert lead + j + trail == lead + (j + trail);
  }

  lemma TrimmedBehind(j: string, trail: string)
    requires j != "" && j[0] != '-' && j[|j| - 1] != '-' && (trail == "" || trail == "-")
    ensures TrimDashes(j + trail) == j
  {
    TrimDashesEnds(j);
    assert trail == "" ==> j + trail == j;
    assert trail == "-" ==> (j + trail)[..|j|] == j;
  }

  lemma TrimmedBefore(s: string, lead: string)
    requires lead == "" || lead == "-"
    ensures TrimDashes(lead + s) == TrimDashes(s)
  {
    assert lead == "" ==> lead + s == s;
    assert lead == "-" ==> (lead + s)[1..] == s;
  }

  lemma OnlyDashes()
    ensures TrimDashes("") == "" && TrimDashes("-") == ""
  {
    assert "-"[1..] == "";
  }

  lemma MappedIsDashed(s: string)
    ensures Dashed(Mapped(s))
  {
    hide SlugChar, InWord;
    forall c | c in Mapped(s) ensures InWord(c) || c == '-' {
      CharsApart(c);
    }
  }

  /** A name becomes its words joined by dashes; there is no slug if it has none, or the first starts with a dot. */
  lemma SlugIsWords(raw: string)
    ensures var ws := Words(raw, "");
      && (forall w | w in ws :: IsWord(w))
      && Sanitised(raw) == (if ws == [] || "." <= ws[0] then None else Some(Join(ws, '-')))
  {
    hide InWord, EndsWord, Squeezed, TrimDashes, Mapped, TrimStart, TrimEnd, IsWhitespace, Join, Words, SlugChar;
    var ws, t := Words(raw, ""), Trim(raw);
    WordsAreWords(raw, "");
    var a, b := TrimExactly(raw);
    BlankAround(a, t, b);
    var m := Mapped(t);
    MappedWords(t, "");
    MappedIsDashed(t);
    SqueezedIsJoined(m);
    NoWords();
    OnlyDashes();
    if ws == [] {
      assert Squeezed(m) == "" || Squeezed(m) == "-";
    } else {
      JoinedEnds(ws);
      var j := Join(ws, '-');
      CharsApart(j[0]);
      CharsApart(j[|j| - 1]);
      TrimmedDashes(j, Lead(m), Trail(m));
    }
  }
}
