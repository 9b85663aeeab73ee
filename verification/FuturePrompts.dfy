/** Deferred prompts of a session, one file a prompt. */
module FuturePrompts {
  import opened Wrappers
  import opened Text
  import opened FrontMatter
  import opened CodexContext
  import opened Picking

  datatype PromptState = Pending | Sent {
    function AsStr(): string { if Pending? then "pending" else "sent" }
  }

  function ParseState(raw: string): Option<PromptState> {
    match raw
    case "pending" => Some(Pending)
    case "sent" => Some(Sent)
    case _ => None
  }

  datatype Entry = Entry(
    id: string, state: PromptState, createdAt: Option<string>, updatedAt: Option<string>, text: string)

  /******* One file *******/

  function OptionalField(key: string, value: Option<string>): seq<Field> {
    if value.Some? then [Field(key, EscapeQuotes(value.value))] else []
  }

  function FieldsFor(e: Entry): seq<Field> {
    [Field("state", e.state.AsStr())] + OptionalField("created_at", e.createdAt) + OptionalField("updated_at", e.updatedAt)
  }

  function Rendered(e: Entry): string { RenderFile(FieldsFor(e), e.text) }

  /** The last state line that names a state. */
  function StateOf(fields: seq<Field>): PromptState {
    if fields == [] then Pending
    else
      var last := fields[|fields| - 1];
      if last.key == "state" && ParseState(last.value).Some? then ParseState(last.value).value
      else StateOf(fields[..|fields| - 1])
  }

  function ParsedEntry(raw: string, id: string): Entry {
    var file := ParseFile(raw);
    var fields := FieldsOf(file.lines);
    Entry(id, StateOf(fields), Last(fields, "created_at"), Last(fields, "updated_at"), file.text)
  }

  method RenderEntry(e: Entry) returns (out: string)
    ensures out == Rendered(e)
  {
    hide FieldLine, EscapeQuotes, TrimNewlines, Header, FieldsFor;
    HeaderOf(e);
    out := OPENING;
    out := out + FieldLine(Field("state", e.state.AsStr())) + "\n";
    if e.createdAt.Some? {
      out := out + FieldLine(Field("created_at", EscapeQuotes(e.createdAt.value))) + "\n";
    }
    if e.updatedAt.Some? {
      out := out + FieldLine(Field("updated_at", EscapeQuotes(e.updatedAt.value))) + "\n";
    }
    out := out + "---\n" + TrimNewlines(e.text);
  }

  lemma HeaderOf(e: Entry)
    ensures Header(FieldsFor(e)) ==
            FieldLine(Field("state", e.state.AsStr())) + "\n" +
            (if e.createdAt.Some? then FieldLine(Field("created_at", EscapeQuotes(e.createdAt.value))) + "\n" else "") +
            (if e.updatedAt.Some? then FieldLine(Field("updated_at", EscapeQuotes(e.updatedAt.value))) + "\n" else "")
  {
    hide FieldLine, EscapeQuotes;
    var first := [Field("state", e.state.AsStr())];
    HeaderConcat(first + OptionalField("created_at", e.createdAt), OptionalField("updated_at", e.updatedAt));
    HeaderConcat(first, OptionalField("created_at", e.createdAt));
    HeaderOfOne(first[0]);
    if e.createdAt.Some? {
      HeaderOfOne(Field("created_at", EscapeQuotes(e.createdAt.value)));
    }
    if e.updatedAt.Some? {
      HeaderOfOne(Field("updated_at", EscapeQuotes(e.updatedAt.value)));
    }
  }

  lemma StateNext(fields: seq<Field>, f: Field)
    ensures StateOf(fields + [f]) ==
            if f.key == "state" && ParseState(f.value).Some? then ParseState(f.value).value else StateOf(fields)
    ensures StateOf([]) == Pending
  {
    hide ParseState;
    assert (fields + [f])[..|fields|] == fields;
  }

  method ParseEntry(raw: string, id: string) returns (e: Entry)
    ensures e == ParsedEntry(raw, id)
  {
    hide FieldOf, FieldsOf, Last, ParseFile, StateOf, ParseState;
    var file := ParseFile(raw);
    NoFields(file.lines);
    StateNext([], Field("", ""));
    var state, createdAt, updatedAt := Pending, None, None;
    for i := 0 to |file.lines|
      invariant var fields := FieldsOf(file.lines[..i]);
        && state == StateOf(fields)
        && createdAt == Last(fields, "created_at") && updatedAt == Last(fields, "updated_at")
    {
      FieldsNext(file.lines, i);
      var field := FieldOf(file.lines[i]);
      if field.Some? {
        LastNext(FieldsOf(file.lines[..i]), field.value);
        StateNext(FieldsOf(file.lines[..i]), field.value);
        match field.value.key {
          case "state" =>
            var parsed := ParseState(field.value.value);
            if parsed.Some? {
              state := parsed.value;
            }
          case "created_at" => createdAt := Some(field.value.value);
          case "updated_at" => updatedAt := Some(field.value.value);
          case _ =>
        }
      }
    }
    assert file.lines[..|file.lines|] == file.lines;
    e := Entry(id, state, createdAt, updatedAt, file.text);
  }

  /** The text of a prompt's file. */
  lemma RenderedText(e: Entry)
    ensures Rendered(e) ==
            "---\n" +
            (Line("state", if e.state == Pending then "pending" else "sent") +
             (if e.createdAt.Some? then Line("created_at", EscapeQuotes(e.createdAt.value)) else "") +
             (if e.updatedAt.Some? then Line("updated_at", EscapeQuotes(e.updatedAt.value)) else "")) +
            "---\n" + TrimNewlines(e.text)
  {
    hide EscapeQuotes, TrimNewlines, Header, FieldsFor, FieldLine, Line;
    HeaderOf(e);
    LineText("state", e.state.AsStr());
    if e.createdAt.Some? {
      LineText("created_at", EscapeQuotes(e.createdAt.value));
    }
    if e.updatedAt.Some? {
      LineText("updated_at", EscapeQuotes(e.updatedAt.value));
    }
  }

  lemma LineText(key: string, value: string)
    ensures FieldLine(Field(key, value)) + "\n" == Line(key, value)
  {
  }

  function Line(key: string, value: string): string { key + ": \"" + value + "\"" + "\n" }

  /** Line `i` is the last that names a state, and says whether it is the one of a sent prompt. */
  ghost predicate LastState(lines: seq<string>, sent: bool, i: nat) {
    && i < |lines| && FieldOf(lines[i]) == Some(Field("state", if sent then "sent" else "pending"))
    && forall j | i < j < |lines| ::
         FieldOf(lines[j]) != Some(Field("state", "sent")) && FieldOf(lines[j]) != Some(Field("state", "pending"))
  }

  /** A prompt is sent exactly if the last header line that names a state says so; otherwise it is pending. */
  lemma {:induction false} StateExactly(lines: seq<string>)
    ensures StateOf(FieldsOf(lines)) == Sent <==> exists i: nat :: LastState(lines, true, i)
  {
    hide FieldOf, ParseState;
    if lines != [] {
      var front, last := lines[..|lines| - 1], lines[|lines| - 1];
      assert lines == front + [last];
      StateExactly(front);
      LastStateNext(front, last);
      FieldsNext(lines, |front|);
      assert lines[..|front| + 1] == lines;
      if FieldOf(last).Some? {
        StateNext(FieldsOf(front), FieldOf(last).value);
        StateNames(FieldOf(last).value.value);
      }
    }
  }

  lemma StateNames(raw: string)
    ensures ParseState(raw) == Some(Sent) <==> raw == "sent"
    ensures ParseState(raw) == Some(Pending) <==> raw == "pending"
  {
  }

  lemma LastStateNext(front: seq<string>, last: string)
    ensures (exists i: nat :: LastState(front + [last], true, i)) <==>
            || FieldOf(last) == Some(Field("state", "sent"))
            || (FieldOf(last) != Some(Field("state", "pending")) && exists i: nat :: LastState(front, true, i))
  {
    hide FieldOf;
    var lines := front + [last];
    assert lines[|front|] == last;
    if exists i: nat :: LastState(lines, true, i) {
      var i: nat :| LastState(lines, true, i);
      if i < |front| {
        assert forall j | i <= j < |front| :: lines[j] == front[j];
        assert LastState(front, true, i);
      }
    }
    if FieldOf(last) == Some(Field("state", "sent")) {
      assert LastState(lines, true, |front|);
    } else if FieldOf(last) != Some(Field("state", "pending")) && exists i: nat :: LastState(front, true, i) {
      var i: nat :| LastState(front, true, i);
      assert forall j | i <= j < |front| :: lines[j] == front[j];
      assert LastState(lines, true, i);
    }
  }

  /** What is read of a file: the last state that is one, the last value of each time, and the text. */
  lemma ReadExactly(raw: string, id: string, value: string)
    ensures var lines, e := ParseFile(raw).lines, ParsedEntry(raw, id);
      && (e.state == Sent <==> exists i: nat :: LastState(lines, true, i))
      && (e.createdAt == Some(value) <==> exists i: nat :: LastSays(lines, "created_at", value, i))
      && (e.updatedAt == Some(value) <==> exists i: nat :: LastSays(lines, "updated_at", value, i))
      && e.text == ParseFile(raw).text && e.id == id
  {
    hide ParseFile, FieldsOf, Last, LastSays, StateOf, LastState;
    var lines := ParseFile(raw).lines;
    StateExactly(lines);
    ValueExactly(lines, "created_at", value);
    ValueExactly(lines, "updated_at", value);
  }

  /******* Which entries come back *******/

  predicate NewlineFree(e: Entry) {
    && (e.createdAt.Some? ==> '\n' !in e.createdAt.value)
    && (e.updatedAt.Some? ==> '\n' !in e.updatedAt.value)
    && (e.text == "" || e.text[0] != '\n')
  }

  lemma FieldWritable(key: string, s: string)
    requires PlainKey(key) && '\n' !in s
    ensures Writable(Field(key, EscapeQuotes(s)))
  {
    hide EscapeQuotes, PlainKey;
    EscapeKeepsNewlines(s);
  }

  lemma FieldsWritable(e: Entry)
    requires NewlineFree(e)
    ensures forall f | f in FieldsFor(e) :: Writable(f)
  {
    hide EscapeQuotes;
    assert Writable(Field("state", e.state.AsStr()));
    hide Writable;
    if e.createdAt.Some? {
      FieldWritable("created_at", e.createdAt.value);
    }
    if e.updatedAt.Some? {
      FieldWritable("updated_at", e.updatedAt.value);
    }
  }

  lemma StateBack(state: PromptState)
    ensures ParseState(Unescape(state.AsStr())) == Some(state)
  {
    var raw := state.AsStr();
    assert '"' !in raw;
    NothingEscaped(raw);
    UnescapeEscape(raw);
  }

  lemma {:induction false} NothingEscaped(s: string)
    requires '"' !in s
    ensures EscapeQuotes(s) == s
  {
    if s != "" {
      assert s == [s[0]] + s[1..];
      NothingEscaped(s[1..]);
    }
  }

  lemma FieldsReturned(e: Entry)
    ensures var fields := Unescaped(FieldsFor(e));
      StateOf(fields) == e.state && Last(fields, "created_at") == e.createdAt && Last(fields, "updated_at") == e.updatedAt
  {
    hide EscapeQuotes, Unescape, StateOf, ParseState, Last;
    var first := [Field("state", Unescape(e.state.AsStr()))];
    var created := if e.createdAt.Some? then [Field("created_at", e.createdAt.value)] else [];
    var updated := if e.updatedAt.Some? then [Field("updated_at", e.updatedAt.value)] else [];
    if e.createdAt.Some? {
      UnescapeEscape(e.createdAt.value);
    }
    if e.updatedAt.Some? {
      UnescapeEscape(e.updatedAt.value);
    }
    assert Unescaped(FieldsFor(e)) == first + created + updated;
    assert first == [] + first[..] && first + [] == first && first + created + [] == first + created;
    StateBack(e.state);
    NoFields([]);
    LastNext([], first[0]);
    StateNext([], first[0]);
    if created != [] {
      LastNext(first, created[0]);
      StateNext(first, created[0]);
    }
    if updated != [] {
      LastNext(first + created, updated[0]);
      StateNext(first + created, updated[0]);
    }
  }

  lemma ReadIsNewlineFree(raw: string, id: string)
    ensures NewlineFree(ParsedEntry(raw, id))
  {
    hide ParseFile, FieldsOf, Last, StateOf;
    ReadHasNoNewline(raw);
    var fields := FieldsOf(ParseFile(raw).lines);
    LastIsAField(fields, "created_at");
    LastIsAField(fields, "updated_at");
  }

  /**
   A prompt comes back exactly when its times hold no newline and its text starts
   with none. The text may hold quotes, backslashes, or a line that looks like the
   end of the header.
   */
  lemma PromptRoundTripExactly(e: Entry)
    ensures ParsedEntry(Rendered(e), e.id) == e <==> NewlineFree(e)
  {
    hide ParseFile, RenderFile, FieldsOf, Last, EscapeQuotes, Unescape, TrimNewlines, StateOf, FieldsFor;
    if NewlineFree(e) {
      FieldsWritable(e);
      FirstField(e);
      ReadBack(FieldsFor(e), e.text);
      FieldsReturned(e);
      TrimmedText(e.text);
    }
    if ParsedEntry(Rendered(e), e.id) == e {
      ReadIsNewlineFree(Rendered(e), e.id);
    }
  }

  lemma FirstField(e: Entry)
    ensures FieldsFor(e) != []
  {
  }

  lemma TrimmedText(s: string)
    requires s == "" || s[0] != '\n'
    ensures TrimNewlines(s) == s
  {
  }

  /******* The files *******/

  predicate IdChar(c: char) { IsAlphanumeric(c) || c in "-_" }

  function KeepIdChars(s: string): (r: string)
    ensures forall c | c in r :: IdChar(c)
  {
    if s == "" then "" else KeepIdChars(s[..|s| - 1]) + if IdChar(s[|s| - 1]) then [s[|s| - 1]] else ""
  }

  function SanitisedId(raw: string): Option<string> {
    var id := KeepIdChars(Trim(raw));
    if id == "" then None else Some(id)
  }

  lemma KeepNext(s: string, c: char)
    ensures KeepIdChars(s + [c]) == KeepIdChars(s) + if IdChar(c) then [c] else ""
    ensures KeepIdChars("") == ""
  {
    hide IdChar;
    assert (s + [c])[..|s|] == s;
  }

  lemma {:induction false} KeepConcat(a: string, b: string)
    ensures KeepIdChars(a + b) == KeepIdChars(a) + KeepIdChars(b)
  {
    hide IdChar, KeepIdChars;
    if b == "" {
      KeepNext("", ' ');
      assert a + b == a && KeepIdChars(a) + "" == KeepIdChars(a);
    } else {
      var front, c := b[..|b| - 1], b[|b| - 1];
      KeepConcat(a, front);
      KeepNext(a + front, c);
      KeepNext(front, c);
      assert a + front + [c] == a + b && front + [c] == b;
    }
  }

  /** The kept characters of a text, in order. */
  ghost predicate AreKept(raw: string, id: string, at: seq<nat>) {
    && Picks(raw, id, at)
    && forall j: nat | j < |raw| ::
         j in at <==> ('a' <= raw[j] <= 'z' || 'A' <= raw[j] <= 'Z' || '0' <= raw[j] <= '9' || raw[j] == '-' || raw[j] == '_')
  }

  lemma {:induction false} KeepPicks(raw: string) returns (at: seq<nat>)
    ensures AreKept(raw, KeepIdChars(raw), at)
  {
    hide Picks, KeepIdChars;
    if raw == "" {
      KeepNext("", ' ');
      PicksNothing(raw);
      at := [];
    } else {
      var front, last := raw[..|raw| - 1], raw[|raw| - 1];
      at := KeepPicks(front);
      assert raw == front + [last];
      PicksNext(front, last, KeepIdChars(front), at);
      KeepNext(front, last);
      assert KeepIdChars(front) + "" == KeepIdChars(front);
      at := if IdChar(last) then at + [|front|] else at;
    }
  }

  lemma {:induction false} BlankKeepsNothing(b: string)
    requires IsBlank(b)
    ensures KeepIdChars(b) == ""
  {
    if b != "" {
      assert b[|b| - 1] in b && IsWhitespace(b[|b| - 1]);
      BlankKeepsNothing(b[..|b| - 1]);
    }
  }

  /** An id is made of the letters, digits, dashes and underscores of the text, in order; without any there is none. */
  lemma SanitisedIdExactly(raw: string) returns (id: string, at: seq<nat>)
    ensures AreKept(raw, id, at)
    ensures SanitisedId(raw) == if id == "" then None else Some(id)
  {
    hide IsBlank, IsWhitespace, TrimStart, TrimEnd, KeepIdChars, AreKept;
    id := KeepIdChars(raw);
    at := KeepPicks(raw);
    var a, b := TrimExactly(raw);
    KeepConcat(a + Trim(raw), b);
    KeepConcat(a, Trim(raw));
    BlankKeepsNothing(a);
    BlankKeepsNothing(b);
    assert "" + KeepIdChars(Trim(raw)) + "" == KeepIdChars(Trim(raw));
  }

  lemma SanitisedIdStays(raw: string)
    ensures SanitisedId(raw).Some? ==> SanitisedId(SanitisedId(raw).value) == SanitisedId(raw)
  {
    hide TrimStart, TrimEnd;
    if SanitisedId(raw).Some? {
      var id := SanitisedId(raw).value;
      assert id[0] in id && id[|id| - 1] in id;
      assert IsTrimmed(id);
      TrimIsTrimmed(id);
      AllKept(id);
    }
  }

  lemma {:induction false} AllKept(s: string)
    requires forall c | c in s :: IdChar(c)
    ensures KeepIdChars(s) == s
  {
    if s != "" {
      AllKept(s[..|s| - 1]);
      assert s == s[..|s| - 1] + [s[|s| - 1]];
    }
  }

  datatype PromptError = EmptyText

  type Place = (Uuid, string)

  lemma TrimmedHasNoNewline(s: string)
    ensures Trim(s) == "" || Trim(s)[0] != '\n'
  {
    hide TrimStart, TrimEnd;
    TrimIsTrimmed(s);
  }

  /** Every prompt this module writes is read back unchanged; the clock's text holds no newline. */
  class Prompts {
    var files: map<Place, string>

    constructor ()
      ensures files == map[]
    {
      files := map[];
    }

    method Create(session: Uuid, id: string, text: string, now: string) returns (r: Result<Entry, PromptError>)
      requires '\n' !in now
      modifies this
      ensures r.Ok? <==> Trim(text) != ""
      ensures r.Err? ==> files == old(files)
      ensures r.Ok? ==>
                && r.value == Entry(id, Pending, Some(now), Some(now), Trim(text))
                && files == old(files)[(session, id) := Rendered(r.value)]
                && ParsedEntry(files[(session, id)], id) == r.value
    {
      hide ParsedEntry, Rendered, TrimStart, TrimEnd;
      var trimmed := Trim(text);
      if trimmed == "" {
        return Err(EmptyText);
      }
      var e := Entry(id, Pending, Some(now), Some(now), trimmed);
      TrimmedHasNoNewline(text);
      PromptRoundTripExactly(e);
      var out := RenderEntry(e);
      files := files[(session, id) := out];
      return Ok(e);
    }

    /** Whatever the file held before. */
    method Update(session: Uuid, rawId: string, text: Option<string>, state: Option<PromptState>, now: string)
      returns (r: Result<Option<Entry>, PromptError>)
      requires '\n' !in now
      modifies this
      ensures var id := SanitisedId(rawId);
        if id.None? || (session, id.value) !in old(files) then r == Ok(None) && files == old(files)
        else if text.Some? && Trim(text.value) == "" then r == Err(EmptyText) && files == old(files)
        else
          var was := ParsedEntry(old(files)[(session, id.value)], id.value);
          var e := Entry(id.value, state.GetOr(was.state), was.createdAt, Some(now),
                         if text.Some? then Trim(text.value) else was.text);
          && r == Ok(Some(e))
          && files == old(files)[(session, id.value) := Rendered(e)]
          && ParsedEntry(files[(session, id.value)], id.value) == e
    {
      hide ParsedEntry, Rendered, TrimStart, TrimEnd, KeepIdChars;
      var id := SanitisedId(rawId);
      if id.None? || (session, id.value) !in files {
        return Ok(None);
      }
      var raw := files[(session, id.value)];
      var e := ParseEntry(raw, id.value);
      ReadIsNewlineFree(raw, id.value);
      IdKept(raw, id.value);
      if text.Some? {
        var trimmed := Trim(text.value);
        if trimmed == "" {
          return Err(EmptyText);
        }
        TrimmedHasNoNewline(text.value);
        e := e.(text := trimmed);
      }
      if state.Some? {
        e := e.(state := state.value);
      }
      e := e.(updatedAt := Some(now));
      PromptRoundTripExactly(e);
      var out := RenderEntry(e);
      files := files[(session, id.value) := out];
      return Ok(Some(e));
    }

    method Delete(session: Uuid, rawId: string) returns (removed: bool)
      modifies this
      ensures removed <==> SanitisedId(rawId).Some? && (session, SanitisedId(rawId).value) in old(files)
      ensures files == if removed then old(files) - {(session, SanitisedId(rawId).value)} else old(files)
    {
      hide SanitisedId;
      var id := SanitisedId(rawId);
      if id.None? || (session, id.value) !in files {
        return false;
      }
      files := files - {(session, id.value)};
      return true;
    }

    /** The badge: how many of a session's prompts are pending. */
    method CountPending(session: Uuid) returns (count: nat)
      ensures count == |set p | p in files && p.0 == session && ParsedEntry(files[p], p.1).state == Pending|
    {
      hide ParsedEntry;
      var todo := files.Keys;
      ghost var pending: set<Place> := {};
      count := 0;
      while todo != {}
        invariant todo <= files.Keys && count == |pending|
        invariant pending == set p | p in files.Keys - todo && p.0 == session && ParsedEntry(files[p], p.1).state == Pending
        decreases todo
      {
        var p :| p in todo;
        todo := todo - {p};
        if p.0 == session {
          var e := ParseEntry(files[p], p.1);
          if e.state == Pending {
            count := count + 1;
            pending := pending + {p};
          }
        }
      }
      assert pending == set p | p in files && p.0 == session && ParsedEntry(files[p], p.1).state == Pending;
    }
  }

  lemma IdKept(raw: string, id: string)
    ensures ParsedEntry(raw, id).id == id
  {
    hide ParseFile, FieldsOf, Last, StateOf;
  }
}
