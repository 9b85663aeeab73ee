/**
 What the ingester takes from a decoded record, told by the fields the record has:
 its kind, what it does to the Codex context, the kind it is stored under, and the
 parent session it points at.
 */
module RecordFields {
  import opened Wrappers
  import opened CodexContext
  import opened Ingester
  import opened LineageColumns

  /** The object `v` has the text `x` under `key`. */
  predicate Says(v: Json, key: string, x: string) { v.Obj? && key in v.fields && v.fields[key] == Str(x) }

  /** The object `v` has no text under `key`. */
  ghost predicate Silent(v: Json, key: string) { forall x :: !Says(v, key, x) }

  /** The payload of `v` has the text `x` under `key`. */
  predicate PayloadSays(v: Json, key: string, x: string) {
    v.Obj? && "payload" in v.fields && Says(v.fields["payload"], key, x)
  }

  ghost predicate PayloadSilent(v: Json, key: string) { forall x :: !PayloadSays(v, key, x) }

  /** The record's kind: its `kind` if that is a text, or else its `type`, or else nothing. */
  ghost predicate OfKind(v: Json, kind: string) {
    || Says(v, "kind", kind)
    || (Silent(v, "kind") && Says(v, "type", kind))
    || (Silent(v, "kind") && Silent(v, "type") && kind == "")
  }

  lemma FieldRead(v: Json, key: string)
    ensures forall x :: AsStr(Get(v, key)) == Some(x) <==> Says(v, key, x)
    ensures AsStr(Get(v, key)).None? <==> Silent(v, key)
  {
    if AsStr(Get(v, key)).Some? {
      assert Says(v, key, AsStr(Get(v, key)).value);
    }
  }

  lemma KindRead(v: Json, kind: string)
    ensures RecordKind(v) == kind <==> OfKind(v, kind)
  {
    hide Get, AsStr, Says;
    FieldRead(v, "kind");
    FieldRead(v, "type");
  }

  lemma PathRead(v: Json, key: string)
    ensures forall x :: StringAtPath(Payload(v), [key]) == Some(x) <==> PayloadSays(v, key, x)
    ensures StringAtPath(Payload(v), [key]).None? <==> PayloadSilent(v, key)
    ensures forall x :: AsStr(Get(Payload(v), key)) == Some(x) <==> PayloadSays(v, key, x)
  {
    assert [key][1..] == [];
    forall x ensures StringAtPath(Payload(v), [key]) == Some(x) <==> PayloadSays(v, key, x) {
      assert Get(Payload(v), key).Some? ==> StringAtPath(Get(Payload(v), key).value, []) == AsStr(Get(Payload(v), key));
    }
    if StringAtPath(Payload(v), [key]).Some? {
      assert PayloadSays(v, key, StringAtPath(Payload(v), [key]).value);
    }
  }

  /** The record names `x` as the session it was spawned from, somewhere below its payload. */
  predicate SpawnedFrom(v: Json, x: string) {
    && v.Obj? && "payload" in v.fields
    && v.fields["payload"].Obj? && "source" in v.fields["payload"].fields
    && var source := v.fields["payload"].fields["source"];
       && source.Obj? && "subagent" in source.fields
       && source.fields["subagent"].Obj? && "thread_spawn" in source.fields["subagent"].fields
       && Says(source.fields["subagent"].fields["thread_spawn"], "parent_thread_id", x)
  }

  lemma SpawnRead(v: Json)
    ensures forall x ::
              StringAtPath(Payload(v), ["source", "subagent", "thread_spawn", "parent_thread_id"]) == Some(x) <==>
              SpawnedFrom(v, x)
  {
    hide StringAtPath;
    var payload := Payload(v);
    var below := ["subagent", "thread_spawn", "parent_thread_id"];
    assert ["source"] + below == ["source", "subagent", "thread_spawn", "parent_thread_id"];
    assert ["subagent"] + ["thread_spawn", "parent_thread_id"] == below;
    assert ["thread_spawn"] + ["parent_thread_id"] == ["thread_spawn", "parent_thread_id"];
    PathStep(payload, "source", below);
    if payload.Obj? && "source" in payload.fields {
      var source := payload.fields["source"];
      PathStep(source, "subagent", ["thread_spawn", "parent_thread_id"]);
      if source.Obj? && "subagent" in source.fields {
        var subagent := source.fields["subagent"];
        PathStep(subagent, "thread_spawn", ["parent_thread_id"]);
        if subagent.Obj? && "thread_spawn" in subagent.fields {
          PathEnd(subagent.fields["thread_spawn"], "parent_thread_id");
        }
      }
    }
  }

  lemma PathStep(v: Json, key: string, rest: seq<string>)
    ensures StringAtPath(v, [key] + rest) ==
            if v.Obj? && key in v.fields then StringAtPath(v.fields[key], rest) else None
  {
    assert ([key] + rest)[1..] == rest;
  }

  lemma PathEnd(v: Json, key: string)
    ensures forall x :: StringAtPath(v, [key]) == Some(x) <==> Says(v, key, x)
  {
    assert [key][1..] == [];
    forall x ensures StringAtPath(v, [key]) == Some(x) <==> Says(v, key, x) {
      assert Get(v, key).Some? ==> StringAtPath(Get(v, key).value, []) == AsStr(Get(v, key));
    }
  }

  /** The parent session a Codex record names: the one it was forked from, or else the one that spawned it. */
  ghost predicate NamesParent(v: Json, x: string) {
    PayloadSays(v, "forked_from_id", x) || (PayloadSilent(v, "forked_from_id") && SpawnedFrom(v, x))
  }

  lemma ParentRead(v: Json)
    ensures forall x :: ParentSession(v) == Some(x) <==> NamesParent(v, x)
  {
    hide StringAtPath, Payload;
    PathRead(v, "forked_from_id");
    SpawnRead(v);
  }

  /******* What a record does to the context *******/

  ghost predicate StartsTurn(v: Json) {
    OfKind(v, "turn_context") || (OfKind(v, "event_msg") && PayloadSays(v, "type", "task_started"))
  }

  /**
   A session description sets the session, to its payload's id or else to the session's
   own, and the parent to the one it names. The start of a turn sets the turn to its
   payload's turn id. Nothing else is set, and no other record sets anything.
   */
  lemma ContextExactly(ctx: Context, v: Json, session: Uuid)
    ensures var after := Update(ctx, v, session);
      && (OfKind(v, "session_meta") ==>
            && (forall x | PayloadSays(v, "id", x) :: after.sessionId == x)
            && (PayloadSilent(v, "id") ==> after.sessionId == session)
            && (forall x :: after.parentSessionId == Some(x) <==> NamesParent(v, x))
            && after.currentTurnId == ctx.currentTurnId)
      && (StartsTurn(v) ==>
            && (forall x :: after.currentTurnId == Some(x) <==> PayloadSays(v, "turn_id", x))
            && after.sessionId == ctx.sessionId && after.parentSessionId == ctx.parentSessionId)
      && (!OfKind(v, "session_meta") && !StartsTurn(v) ==> after == ctx)
  {
    hide StringAtPath, Payload, ParentSession, OfKind, RecordKind, NamesParent, PayloadSays, PayloadSilent;
    KindRead(v, "session_meta");
    KindRead(v, "turn_context");
    KindRead(v, "event_msg");
    PathRead(v, "id");
    PathRead(v, "turn_id");
    PathRead(v, "type");
    ParentRead(v);
  }

  /******* The kind a row is stored under *******/

  /** Claude rows are stored under their type; Codex rows under their payload's type, or else their own kind. */
  lemma StoredUnder(s: Session, v: Json)
    ensures s.source.ClaudeCode? ==>
              && (forall x | Says(v, "type", x) :: Kind(s.source, v) == x)
              && (Silent(v, "type") ==> Kind(s.source, v) == "unknown")
    ensures s.source.Codex? && (OfKind(v, "response_item") || OfKind(v, "event_msg")) ==>
              && (forall x | PayloadSays(v, "type", x) :: Kind(s.source, v) == if x == "" then "unknown" else x)
              && (PayloadSilent(v, "type") ==> OfKind(v, Kind(s.source, v)))
    ensures s.source.Codex? && !OfKind(v, "response_item") && !OfKind(v, "event_msg") ==>
              if OfKind(v, "") then Kind(s.source, v) == "unknown" else OfKind(v, Kind(s.source, v))
  {
    hide StringAtPath, Get, OfKind, RecordKind, Says, Silent, PayloadSays, PayloadSilent, Payload;
    FieldRead(v, "type");
    PathRead(v, "type");
    KindRead(v, "response_item");
    KindRead(v, "event_msg");
    KindRead(v, "");
    KindRead(v, Kind(s.source, v));
    if PayloadType(v).Some? {
      assert PayloadSays(v, "type", PayloadType(v).value);
    }
  }

  /******* The parent session a record points at *******/

  /** `b` is `a` with its capital ASCII letters made small. */
  predicate SameLetters(a: string, b: string) {
    && |a| == |b|
    && forall i | 0 <= i < |a| :: if 'A' <= a[i] <= 'Z' then b[i] as int == a[i] as int + 32 else b[i] == a[i]
  }

  /** Flagged as a compaction summary, or of such a type in any letter case. */
  ghost predicate IsSummary(v: Json) {
    || (v.Obj? && "isCompactSummary" in v.fields && v.fields["isCompactSummary"] == Bool(true))
    || exists x :: Says(v, "type", x) && (SameLetters(x, "summary") || SameLetters(x, "compact_summary"))
  }

  lemma LowerIs(a: string, b: string)
    ensures Lower(a) == b <==> SameLetters(a, b)
  {
    if SameLetters(a, b) {
      assert forall i | 0 <= i < |a| :: Lower(a)[i] == b[i];
    }
  }

  lemma SummaryRead(v: Json)
    ensures IsCompactSummary(v) <==> IsSummary(v)
  {
    hide Lower, SameLetters;
    FieldRead(v, "type");
    forall x ensures Lower(x) in {"summary", "compact_summary"} <==>
                     SameLetters(x, "summary") || SameLetters(x, "compact_summary") {
      LowerIs(x, "summary");
      LowerIs(x, "compact_summary");
    }
    if AsStr(Get(v, "type")).Some? {
      assert Says(v, "type", AsStr(Get(v, "type")).value);
    }
  }

  /** The record gives session `p` under `key`, and it is another session. */
  ghost predicate Points(s: Session, v: Json, key: string, p: Uuid) {
    p != s.id && exists x :: Says(v, key, x) && s.env.parseUuid(x) == Some(p)
  }

  /** The fields a Claude record may point at its parent with. */
  function PointerAt(i: nat): string
    requires i < 6
  {
    match i
    case 0 => "leafUuid"
    case 1 => "parentSessionUuid"
    case 2 => "parent_session_uuid"
    case 3 => "parentSessionId"
    case 4 => "parent_session_id"
    case 5 => "compactedFromSessionUuid"
  }

  /** The `i`th of them points at `p`; the first counts in a compaction summary only. */
  ghost predicate PointsBy(s: Session, v: Json, i: nat, p: Uuid) {
    i < 6 && Points(s, v, PointerAt(i), p) && (i == 0 ==> IsSummary(v))
  }

  lemma HintRead(s: Session, v: Json, i: nat)
    requires i < 6
    ensures |PARENT_KEYS| == 6 && PARENT_KEYS[i] == PointerAt(i)
    ensures forall p :: Hint(s, v, PARENT_KEYS[i]) == Some(p) <==> PointsBy(s, v, i, p)
  {
    hide Get, AsStr, Says, IsCompactSummary, IsSummary;
    var key := PARENT_KEYS[i];
    FieldRead(v, key);
    SummaryRead(v);
    if AsStr(Get(v, key)).Some? {
      assert Says(v, key, AsStr(Get(v, key)).value);
    }
  }

  /** A Claude record's parent is what the first field that points anywhere points at. */
  lemma ClaudeParentExactly(s: Session, v: Json, p: Uuid)
    requires s.source.ClaudeCode?
    ensures DetectParent(s, v) == Some(p) <==>
            exists i: nat :: PointsBy(s, v, i, p) && forall j: nat, q | j < i :: !PointsBy(s, v, j, q)
  {
    hide FirstParentHint, Hint, PointsBy, PointerAt;
    FirstHintDecides(s, v, PARENT_KEYS, p);
    if DetectParent(s, v) == Some(p) {
      var i: nat :| FirstAt(s, v, PARENT_KEYS, p, i);
      HintRead(s, v, i);
      forall j: nat, q | j < i ensures !PointsBy(s, v, j, q) {
        HintRead(s, v, j);
      }
    }
    if exists i: nat :: PointsBy(s, v, i, p) && forall j: nat, q | j < i :: !PointsBy(s, v, j, q) {
      var i: nat :| PointsBy(s, v, i, p) && forall j: nat, q | j < i :: !PointsBy(s, v, j, q);
      PointsInRange(s, v, i, p);
      HintRead(s, v, i);
      forall j | 0 <= j < i ensures Hint(s, v, PARENT_KEYS[j]).None? {
        HintRead(s, v, j);
      }
      assert FirstAt(s, v, PARENT_KEYS, p, i);
    }
  }

  lemma PointsInRange(s: Session, v: Json, i: nat, p: Uuid)
    requires PointsBy(s, v, i, p)
    ensures i < 6
  {
  }

  /** A Codex record's parent is the session it names, if that is a UUID and not the session itself. */
  lemma CodexParentExactly(s: Session, v: Json, p: Uuid)
    requires s.source.Codex?
    ensures DetectParent(s, v) == Some(p) <==>
            p != s.id && exists x :: NamesParent(v, x) && s.env.parseUuid(x) == Some(p)
  {
    hide ParentSession, NamesParent;
    ParentRead(v);
    if ParentSession(v).Some? {
      assert NamesParent(v, ParentSession(v).value);
    }
  }
}
