/** The prompt and reference library: one file an entry, under a slug of its name. */
module Library {
  import opened Wrappers
  import opened Text
  import opened FrontMatter
  import opened Slugs

  datatype Kind = References | Prompts

  datatype Entry = Entry(
    slug: string, name: string, createdAt: Option<string>, updatedAt: Option<string>, body: string)

  datatype LibraryError = InvalidSlug | NameHasNoSlug

  /******* One file *******/

  function Escaped(s: string): string { EscapeQuotes(DoubleBackslashes(s)) }

  function OptionalField(key: string, value: Option<string>): seq<Field> {
    if value.Some? then [Field(key, Escaped(value.value))] else []
  }

  function FieldsFor(e: Entry): seq<Field> {
    [Field("name", Escaped(e.name))] + OptionalField("created_at", e.createdAt) + OptionalField("updated_at", e.updatedAt)
  }

  function Rendered(e: Entry): string { RenderFile(FieldsFor(e), e.body) }

  function ParsedEntry(raw: string, slug: string): Entry {
    var file := ParseFile(raw);
    var fields := FieldsOf(file.lines);
    Entry(slug, Last(fields, "name").GetOr(slug), Last(fields, "created_at"), Last(fields, "updated_at"), file.text)
  }

  method RenderEntry(e: Entry) returns (out: string)
    ensures out == Rendered(e)
  {
    hide FieldLine, Escaped, TrimNewlines, Header, FieldsFor;
    HeaderOf(e);
    out := OPENING;
    out := out + FieldLine(Field("name", Escaped(e.name))) + "\n";
    if e.createdAt.Some? {
      out := out + FieldLine(Field("created_at", Escaped(e.createdAt.value))) + "\n";
    }
    if e.updatedAt.Some? {
      out := out + FieldLine(Field("updated_at", Escaped(e.updatedAt.value))) + "\n";
    }
    out := out + "---\n" + TrimNewlines(e.body);
  }

  lemma HeaderOf(e: Entry)
    ensures Header(FieldsFor(e)) ==
            FieldLine(Field("name", Escaped(e.name))) + "\n" +
            (if e.createdAt.Some? then FieldLine(Field("created_at", Escaped(e.createdAt.value))) + "\n" else "") +
            (if e.updatedAt.Some? then FieldLine(Field("updated_at", Escaped(e.updatedAt.value))) + "\n" else "")
  {
    hide FieldLine, Escaped;
    var name := [Field("name", Escaped(e.name))];
    HeaderConcat(name + OptionalField("created_at", e.createdAt), OptionalField("updated_at", e.updatedAt));
    HeaderConcat(name, OptionalField("created_at", e.createdAt));
    HeaderOfOne(name[0]);
    if e.createdAt.Some? {
      HeaderOfOne(Field("created_at", Escaped(e.createdAt.value)));
    }
    if e.updatedAt.Some? {
      HeaderOfOne(Field("updated_at", Escaped(e.updatedAt.value)));
    }
  }

  method ParseEntry(raw: string, slug: string) returns (e: Entry)
    ensures e == ParsedEntry(raw, slug)
  {
    hide FieldOf, FieldsOf, Last, ParseFile;
    var file := ParseFile(raw);
    NoFields(file.lines);
    var name, createdAt, updatedAt := slug, None, None;
    for i := 0 to |file.lines|
      invariant var fields := FieldsOf(file.lines[..i]);
        && name == Last(fields, "name").GetOr(slug)
        && createdAt == Last(fields, "created_at") && updatedAt == Last(fields, "updated_at")
    {
      FieldsNext(file.lines, i);
      var field := FieldOf(file.lines[i]);
      if field.Some? {
        LastNext(FieldsOf(file.lines[..i]), field.value);
        match field.value.key {
          case "name" => name := field.value.value;
          case "created_at" => createdAt := Some(field.value.value);
          case "updated_at" => updatedAt := Some(field.value.value);
          case _ =>
        }
      }
    }
    assert file.lines[..|file.lines|] == file.lines;
    e := Entry(slug, name, createdAt, updatedAt, file.text);
  }

  /** The text of an entry's file. */
  lemma RenderedText(e: Entry)
    ensures Rendered(e) ==
            "---\n" +
            (Line("name", Escaped(e.name)) +
             (if e.createdAt.Some? then Line("created_at", Escaped(e.createdAt.value)) else "") +
             (if e.updatedAt.Some? then Line("updated_at", Escaped(e.updatedAt.value)) else "")) +
            "---\n" + TrimNewlines(e.body)
  {
    hide Escaped, TrimNewlines, Header, FieldsFor, FieldLine, Line;
    HeaderOf(e);
    LineText("name", Escaped(e.name));
    if e.createdAt.Some? {
      LineText("created_at", Escaped(e.createdAt.value));
    }
    if e.updatedAt.Some? {
      LineText("updated_at", Escaped(e.updatedAt.value));
    }
  }

  lemma LineText(key: string, value: string)
    ensures FieldLine(Field(key, value)) + "\n" == Line(key, value)
  {
  }

  function Line(key: string, value: string): string { key + ": \"" + value + "\"" + "\n" }

  /** What is read of a file: the last value of each field, the slug for a missing name, and the text. */
  lemma ReadExactly(raw: string, slug: string, value: string)
    ensures var lines, e := ParseFile(raw).lines, ParsedEntry(raw, slug);
      && (e.createdAt == Some(value) <==> exists i: nat :: LastSays(lines, "created_at", value, i))
      && (e.updatedAt == Some(value) <==> exists i: nat :: LastSays(lines, "updated_at", value, i))
      && ((exists i: nat :: LastSays(lines, "name", value, i)) ==> e.name == value)
      && ((forall v, i: nat :: !LastSays(lines, "name", v, i)) ==> e.name == slug)
      && e.body == ParseFile(raw).text && e.slug == slug
  {
    hide ParseFile, FieldsOf, Last, LastSays;
    var lines := ParseFile(raw).lines;
    forall key, v ensures Last(FieldsOf(lines), key) == Some(v) <==> exists i: nat :: LastSays(lines, key, v, i) {
      ValueExactly(lines, key, v);
    }
    var name := Last(FieldsOf(lines), "name");
    if name.Some? {
      assert exists i: nat :: LastSays(lines, "name", name.value, i);
    }
  }

  /******* Which entries come back *******/

  /** A value that the header carries unchanged. */
  predicate Carried(s: string) { '\n' !in s && '\\' !in s }

  predicate CarriedOption(s: Option<string>) { s.Some? ==> Carried(s.value) }

  lemma EscapedBack(s: string)
    ensures Unescape(Escaped(s)) == s <==> '\\' !in s
    ensures '\n' in Escaped(s) <==> '\n' in s
  {
    UnescapeEscape(DoubleBackslashes(s));
    DoubledLength(s);
    EscapeKeepsNewlines(DoubleBackslashes(s));
  }

  predicate NewlineFree(e: Entry) {
    && '\n' !in e.name
    && (e.createdAt.Some? ==> '\n' !in e.createdAt.value)
    && (e.updatedAt.Some? ==> '\n' !in e.updatedAt.value)
  }

  function Returned(s: Option<string>): Option<string> {
    if s.Some? then Some(Unescape(Escaped(s.value))) else None
  }

  lemma FieldWritable(key: string, s: string)
    requires PlainKey(key) && '\n' !in s
    ensures Writable(Field(key, Escaped(s)))
  {
    hide Escaped, PlainKey;
    EscapedBack(s);
  }

  lemma FieldsWritable(e: Entry)
    requires NewlineFree(e)
    ensures forall f | f in FieldsFor(e) :: Writable(f)
  {
    hide Escaped, Writable;
    FieldWritable("name", e.name);
    if e.createdAt.Some? {
      FieldWritable("created_at", e.createdAt.value);
    }
    if e.updatedAt.Some? {
      FieldWritable("updated_at", e.updatedAt.value);
    }
  }

  lemma FieldsReturned(e: Entry)
    ensures var fields := Unescaped(FieldsFor(e));
      && Last(fields, "name") == Returned(Some(e.name))
      && Last(fields, "created_at") == Returned(e.createdAt)
      && Last(fields, "updated_at") == Returned(e.updatedAt)
  {
    hide Escaped, Unescape;
    var name := [Field("name", Unescape(Escaped(e.name)))];
    var created := if e.createdAt.Some? then [Field("created_at", Unescape(Escaped(e.createdAt.value)))] else [];
    var updated := if e.updatedAt.Some? then [Field("updated_at", Unescape(Escaped(e.updatedAt.value)))] else [];
    assert Unescaped(FieldsFor(e)) == name + created + updated;
    assert name == [] + name && name + [] == name && name + created + [] == name + created;
    LastNext([], name[0]);
    if created != [] {
      LastNext(name, created[0]);
    }
    if updated != [] {
      LastNext(name + created, updated[0]);
    }
  }

  /** What an entry whose fields hold no newline comes back as. */
  lemma NewlineFreeReturns(e: Entry)
    requires NewlineFree(e)
    ensures ParsedEntry(Rendered(e), e.slug) ==
            Entry(e.slug, Returned(Some(e.name)).value, Returned(e.createdAt), Returned(e.updatedAt), TrimNewlines(e.body))
  {
    hide ParseFile, RenderFile, FieldsOf, Last, Escaped, Unescape, TrimNewlines;
    FieldsWritable(e);
    ReadBack(FieldsFor(e), e.body);
    FieldsReturned(e);
  }

  lemma ReadIsNewlineFree(raw: string, slug: string)
    requires '\n' !in slug
    ensures var e := ParsedEntry(raw, slug); NewlineFree(e) && (e.body == "" || e.body[0] != '\n')
  {
    hide ParseFile, FieldsOf, Last;
    ReadHasNoNewline(raw);
    var fields := FieldsOf(ParseFile(raw).lines);
    LastIsAField(fields, "name");
    LastIsAField(fields, "created_at");
    LastIsAField(fields, "updated_at");
  }

  /** An entry comes back exactly when its fields hold no newline or backslash and its body starts with no newline. */
  lemma EntryRoundTripExactly(e: Entry)
    requires '\n' !in e.slug
    ensures ParsedEntry(Rendered(e), e.slug) == e <==>
            && Carried(e.name) && CarriedOption(e.createdAt) && CarriedOption(e.updatedAt)
            && (e.body == "" || e.body[0] != '\n')
  {
    hide ParsedEntry, Rendered, Escaped, Unescape;
    if ParsedEntry(Rendered(e), e.slug) == e {
      ReadIsNewlineFree(Rendered(e), e.slug);
    }
    if NewlineFree(e) {
      NewlineFreeReturns(e);
      EscapedBack(e.name);
      if e.createdAt.Some? {
        EscapedBack(e.createdAt.value);
      }
      if e.updatedAt.Some? {
        EscapedBack(e.updatedAt.value);
      }
    }
  }

  /** Whatever was stored, what is read once is read the same after being written back, unless a backslash is in it. */
  lemma RereadExactly(raw: string, slug: string)
    requires '\n' !in slug
    ensures var e := ParsedEntry(raw, slug);
      ParsedEntry(Rendered(e), slug) == e <==>
      '\\' !in e.name && (e.createdAt.Some? ==> '\\' !in e.createdAt.value) &&
      (e.updatedAt.Some? ==> '\\' !in e.updatedAt.value)
  {
    hide ParsedEntry, Rendered;
    ReadIsNewlineFree(raw, slug);
    EntrySlug(raw, slug);
    EntryRoundTripExactly(ParsedEntry(raw, slug));
  }

  lemma EntrySlug(raw: string, slug: string)
    ensures ParsedEntry(raw, slug).slug == slug
  {
    hide ParseFile, FieldsOf, Last;
  }

  /******* Listing *******/

  predicate EndsInMd(s: string) { |s| >= 3 && s[|s| - 3..] == ".md" }

  /** `s.trim_end_matches(".md")` takes every such ending off. */
  function TrimMd(s: string): string { if EndsInMd(s) then TrimMd(s[..|s| - 3]) else s }

  /** A listing names the file's slug exactly when the slug does not itself end in `.md`. */
  lemma ListedExactly(slug: string)
    ensures TrimMd(slug + ".md") == slug <==> !EndsInMd(slug)
  {
    var file := slug + ".md";
    assert file[..|file| - 3] == slug && file[|file| - 3..] == ".md";
    TrimMdShortens(slug);
  }

  lemma {:induction false} TrimMdShortens(s: string)
    ensures |TrimMd(s)| <= |s| && (EndsInMd(s) ==> |TrimMd(s)| < |s|)
  {
    if EndsInMd(s) {
      TrimMdShortens(s[..|s| - 3]);
    }
  }

  /******* The files *******/

  type Place = (Kind, string)

  lemma SlugHasNoNewline(slug: string)
    requires IsSlug(slug)
    ensures '\n' !in slug
  {
    assert !SlugChar('\n');
  }

  function SlugsOf(files: map<Place, string>, kind: Kind): set<string> { set p | p in files && p.0 == kind :: p.1 }

  class Files {
    var files: map<Place, string>

    constructor ()
      ensures files == map[]
    {
      files := map[];
    }

    method Read(kind: Kind, slug: string) returns (e: Option<Entry>)
      ensures e == match Sanitised(slug)
                   case None => None
                   case Some(s) => if (kind, s) in files then Some(ParsedEntry(files[(kind, s)], s)) else None
    {
      var s := SanitiseSlug(slug);
      if s.None? || (kind, s.value) !in files {
        return None;
      }
      var entry := ParseEntry(files[(kind, s.value)], s.value);
      return Some(entry);
    }

    /** Writes one file. What a later read gives is the returned entry exactly when the header can carry it. */
    method Save(kind: Kind, slug: string, name: string, body: string, now: string) returns (r: Result<Entry, LibraryError>)
      modifies this
      ensures r.Ok? <==> Sanitised(slug).Some?
      ensures r.Err? ==> r == Err(InvalidSlug) && files == old(files)
      ensures r.Ok? ==>
                && Some(r.value.slug) == Sanitised(slug)
                && r.value.name == Trim(name) && r.value.body == body && r.value.updatedAt == Some(now)
                && files == old(files)[(kind, r.value.slug) := Rendered(r.value)]
                && r.value.createdAt ==
                   (var was := old(files);
                    if (kind, r.value.slug) in was && ParsedEntry(was[(kind, r.value.slug)], r.value.slug).createdAt.Some?
                    then ParsedEntry(was[(kind, r.value.slug)], r.value.slug).createdAt
                    else Some(now))
      ensures r.Ok? ==>
                (ParsedEntry(files[(kind, r.value.slug)], r.value.slug) == r.value <==>
                 && Carried(Trim(name)) && CarriedOption(r.value.createdAt) && Carried(now)
                 && (body == "" || body[0] != '\n'))
    {
      hide ParsedEntry, Rendered, Carried;
      var s := SanitiseSlug(slug);
      if s.None? {
        return Err(InvalidSlug);
      }
      var createdAt := None;
      if (kind, s.value) in files {
        var existing := ParseEntry(files[(kind, s.value)], s.value);
        createdAt := existing.createdAt;
      }
      var e := Entry(s.value, Trim(name), OrElse(createdAt, Some(now)), Some(now), body);
      var out := RenderEntry(e);
      files := files[(kind, s.value) := out];
      SlugHasNoNewline(s.value);
      EntryRoundTripExactly(e);
      return Ok(e);
    }

    /** Saving under a name adds one new file and alters no other. */
    method Create(kind: Kind, name: string, body: string, now: string) returns (r: Result<Entry, LibraryError>)
      modifies this
      ensures r.Ok? <==> Sanitised(name).Some?
      ensures r.Err? ==> r == Err(NameHasNoSlug) && files == old(files)
      ensures r.Ok? ==>
                && (kind, r.value.slug) !in old(files)
                && files == old(files)[(kind, r.value.slug) := Rendered(r.value)]
                && r.value == Entry(r.value.slug, Trim(name), Some(now), Some(now), body)
                && IsSlug(r.value.slug)
                && ((kind, Sanitised(name).value) !in old(files) ==> Some(r.value.slug) == Sanitised(name))
                && ((kind, Sanitised(name).value) in old(files) ==>
                      exists n: nat :: FirstFree(SlugsOf(old(files), kind), Sanitised(name).value, r.value.slug, n))
    {
      hide ParsedEntry, Rendered, Carried, Sanitised, IsSlug, FirstFree;
      var desired := SanitiseSlug(name);
      if desired.None? {
        return Err(NameHasNoSlug);
      }
      var slug := NextAvailableSlug(SlugsOf(files, kind), desired.value);
      SanitisedExactly(slug);
      assert (kind, desired.value).0 == kind && (kind, desired.value).1 == desired.value;
      assert (kind, slug).0 == kind && (kind, slug).1 == slug;
      r := Save(kind, slug, name, body, now);
    }

    method Delete(kind: Kind, slug: string) returns (removed: bool)
      modifies this
      ensures removed <==> Sanitised(slug).Some? && (kind, Sanitised(slug).value) in old(files)
      ensures files == if removed then old(files) - {(kind, Sanitised(slug).value)} else old(files)
    {
      var s := SanitiseSlug(slug);
      if s.None? || (kind, s.value) !in files {
        return false;
      }
      files := files - {(kind, s.value)};
      return true;
    }
  }
}
