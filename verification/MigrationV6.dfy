/** Schema v5 to v6 and back: persistent chat threads become conversations, at every depth of the records. */
module MigrationV6 {
  import opened Wrappers
  import opened JsonValues

  datatype Direction = Upgrade | Downgrade {
    function Flip(): Direction {
      if this == Upgrade then Downgrade else Upgrade
    }

    function OldKind(): string {
      if this == Upgrade then "thread" else "conversation"
    }

    function NewKind(): string {
      Flip().OldKind()
    }

    function OldCollection(): string {
      if this == Upgrade then "chat_threads" else "conversations"
    }

    function NewCollection(): string {
      Flip().OldCollection()
    }
  }

  datatype Error = BothKeys | NotAnObject | DestinationExists

  // ---------------------------------------------------------------- prefixes

  function Replace(s: string, old': string, new': string): string {
    if old' <= s then new' + s[|old'|..] else s
  }

  function SwapPrefix(s: string, d: Direction): string {
    Replace(s, d.OldKind() + ":", d.NewKind() + ":")
  }

  /** Two prefixes neither of which starts the other, such as "thread:" and "conversation:". */
  predicate Exclusive(a: string, b: string) {
    !(a <= b) && !(b <= a)
  }

  /** Swapping a prefix back restores a string exactly when it did not have the new prefix already. */
  lemma ReplaceUndone(s: string, old': string, new': string)
    requires Exclusive(old', new')
    ensures Replace(Replace(s, old', new'), new', old') == s <==> !(new' <= s)
  {
    if old' <= s {
      assert new' <= new' + s[|old'|..];
      assert (new' + s[|old'|..])[|new'|..] == s[|old'|..];
      assert old' + s[|old'|..] == s;
      if new' <= s {
        ComparablePrefixes(old', new', s);
      }
    } else if new' <= s {
      assert old' <= old' + s[|new'|..];
    }
  }

  lemma ComparablePrefixes(a: string, b: string, s: string)
    requires a <= s && b <= s
    ensures a <= b || b <= a
  {
    assert a == s[..|a|] && b == s[..|b|];
    if |a| <= |b| {
      assert b[..|a|] == a;
    } else {
      assert a[..|b|] == b;
    }
  }

  lemma KindsExclusive(d: Direction)
    ensures Exclusive(d.OldKind() + ":", d.NewKind() + ":")
  {
    assert (d.OldKind() + ":")[0] != (d.NewKind() + ":")[0];
  }

  // ---------------------------------------------------------------- the memory walk

  function WalkRef(ref: Json, d: Direction): Json {
    if ref.Str? then Str(SwapPrefix(ref.text, d)) else ref
  }

  /** The keys whose values are handled in place, and when they are. */
  predicate InPlace(key: string, item: Json, d: Direction) {
    || (key == "source_type" && item == Str(d.OldKind()))
    || (key == "source_ref" && item.Str? && d.OldKind() + ":" <= item.text)
    || (key == "source_refs" && item.List?)
  }

  function WalkInPlace(key: string, item: Json, d: Direction): Json
    requires InPlace(key, item, d)
  {
    if key == "source_type" then Str(d.NewKind())
    else if key == "source_ref" then WalkRef(item, d)
    else List(seq(|item.items|, i requires 0 <= i < |item.items| => WalkRef(item.items[i], d)))
  }

  function Walk(v: Json, d: Direction): Json
    decreases v, 0
  {
    match v
    case Obj(fields) => Obj(map key | key in fields :: WalkField(key, fields[key], d))
    case List(items) => List(seq(|items|, i requires 0 <= i < |items| => Walk(items[i], d)))
    case _ => v
  }

  function WalkField(key: string, item: Json, d: Direction): Json
    decreases item, 1
  {
    if InPlace(key, item, d) then WalkInPlace(key, item, d) else Walk(item, d)
  }

  predicate CleanRef(ref: Json, d: Direction) {
    ref.Str? ==> !(d.NewKind() + ":" <= ref.text)
  }

  /** The value does not use the new names anywhere the walk looks. */
  predicate Clean(v: Json, d: Direction)
    decreases v, 0
  {
    match v
    case Obj(fields) => forall key :: key in fields ==> CleanField(key, fields[key], d)
    case List(items) => forall i :: 0 <= i < |items| ==> Clean(items[i], d)
    case _ => true
  }

  predicate CleanField(key: string, item: Json, d: Direction)
    decreases item, 1
  {
    && (key == "source_type" ==> item != Str(d.NewKind()))
    && (key == "source_ref" ==> CleanRef(item, d))
    && (if key == "source_refs" && item.List? then forall i :: 0 <= i < |item.items| ==> CleanRef(item.items[i], d)
        else Clean(item, d))
  }

  /** The walk there and back is the identity on exactly the values that were clean before. */
  lemma {:induction false} WalkUndone(v: Json, d: Direction)
    ensures Walk(Walk(v, d), d.Flip()) == v <==> Clean(v, d)
    decreases v, 0
  {
    match v
    case Obj(fields) =>
      forall key | key in fields
        ensures WalkField(key, WalkField(key, fields[key], d), d.Flip()) == fields[key]
                <==> CleanField(key, fields[key], d)
      {
        FieldUndone(key, fields[key], d);
      }
      hide WalkField, CleanField;
      var back := Walk(Walk(v, d), d.Flip()).fields;
      assert back.Keys == fields.Keys;
      assert back == fields <==> forall key :: key in fields ==> back[key] == fields[key];
    case List(items) =>
      forall i | 0 <= i < |items| ensures Walk(Walk(items[i], d), d.Flip()) == items[i] <==> Clean(items[i], d) {
        WalkUndone(items[i], d);
      }
      ListUndone(items, d);
    case _ =>
  }

  lemma ListUndone(items: seq<Json>, d: Direction)
    ensures Walk(Walk(List(items), d), d.Flip()) == List(items)
       <==> forall i :: 0 <= i < |items| ==> Walk(Walk(items[i], d), d.Flip()) == items[i]
  {
    var back := Walk(Walk(List(items), d), d.Flip()).items;
    assert |back| == |items| && forall i :: 0 <= i < |items| ==> back[i] == Walk(Walk(items[i], d), d.Flip());
    assert back == items <==> forall i :: 0 <= i < |items| ==> back[i] == items[i];
  }

  lemma {:induction false} FieldUndone(key: string, item: Json, d: Direction)
    ensures WalkField(key, WalkField(key, item, d), d.Flip()) == item <==> CleanField(key, item, d)
    decreases item, 1
  {
    KindsExclusive(d);
    if key == "source_refs" && item.List? {
      RefsUndone(item.items, d);
    } else {
      WalkUndone(item, d);
      if key == "source_ref" && item.Str? {
        ReplaceUndone(item.text, d.OldKind() + ":", d.NewKind() + ":");
      }
    }
  }

  lemma RefsUndone(items: seq<Json>, d: Direction)
    ensures var there := WalkInPlace("source_refs", List(items), d);
            WalkInPlace("source_refs", there, d.Flip()) == List(items)
            <==> forall i :: 0 <= i < |items| ==> CleanRef(items[i], d)
  {
    KindsExclusive(d);
    var there := WalkInPlace("source_refs", List(items), d);
    var back := WalkInPlace("source_refs", there, d.Flip()).items;
    forall i | 0 <= i < |items| ensures back[i] == items[i] <==> CleanRef(items[i], d) {
      if items[i].Str? {
        ReplaceUndone(items[i].text, d.OldKind() + ":", d.NewKind() + ":");
      }
    }
    assert back == items <==> forall i :: 0 <= i < |items| ==> back[i] == items[i];
  }

  // ---------------------------------------------------------------- one record

  function RenameKey(fields: map<string, Json>, old': string, new': string): Result<map<string, Json>, Error> {
    if old' !in fields then Ok(fields)
    else if new' in fields then Err(BothKeys)
    else Ok((fields - {old'})[new' := fields[old']])
  }

  lemma RenameUndone(fields: map<string, Json>, old': string, new': string)
    requires old' != new' && RenameKey(fields, old', new').Ok?
    ensures var there := RenameKey(fields, old', new').value;
            && RenameKey(there, new', old').Ok?
            && (RenameKey(there, new', old').value == fields <==> new' !in fields)
  {
    var there := RenameKey(fields, old', new').value;
    var back := RenameKey(there, new', old').value;
    if old' in fields {
      assert back.Keys == fields.Keys;
    } else if new' in fields {
      assert old' in back;
    }
  }

  const CURSORS := "memory_curator_cursors"
  const PLANS := "memory_curator_plans"
  const TRACES := "trace_nodes"
  const REFLECTIONS := "reflection_entries"
  const NOTIFICATIONS := "notification_outbox"
  const MEMORY := ["memory_entries", "memory_candidates", "profile_items"]

  function Transformed(d: Direction): seq<string> {
    [d.OldCollection(), CURSORS, PLANS, TRACES, REFLECTIONS, NOTIFICATIONS]
  }

  /** The key that a collection's records rename, by the kind in use before. */
  function KeyOf(c: string, kind: string): string {
    if c == REFLECTIONS then "suggested_" + kind + "_id" else kind + "_id"
  }

  function LinkPrefix(kind: string): string {
    "nuself://" + kind + "/"
  }

  function TransformRecord(c: string, fields: map<string, Json>, d: Direction): Result<Json, Error> {
    if c == NOTIFICATIONS then
      if "deep_link" in fields && fields["deep_link"].Str? then
        Ok(Obj(fields["deep_link" := Str(
             Replace(fields["deep_link"].text, LinkPrefix(d.OldKind()), LinkPrefix(d.NewKind())))]))
      else Ok(Obj(fields))
    else
      var renamed := RenameKey(fields, KeyOf(c, d.OldKind()), KeyOf(c, d.NewKind()));
      if renamed.Ok? then Ok(Obj(renamed.value)) else Err(renamed.error)
  }

  function TransformPayload(c: string, v: Json, d: Direction): Result<Json, Error> {
    if c in Transformed(d) then
      if v.Obj? then TransformRecord(c, v.fields, d) else Err(NotAnObject)
    else if c in MEMORY then Ok(Walk(v, d))
    else Ok(v)
  }

  /** The payload uses none of the new names that its collection is migrated to. */
  predicate CleanPayload(c: string, v: Json, d: Direction) {
    if c == NOTIFICATIONS then
      && v.Obj?
      && (("deep_link" in v.fields && v.fields["deep_link"].Str?) ==>
            !(LinkPrefix(d.NewKind()) <= v.fields["deep_link"].text))
    else if c in Transformed(d) then v.Obj? && KeyOf(c, d.NewKind()) !in v.fields
    else c in MEMORY ==> Clean(v, d)
  }

  function Moved(c: string, d: Direction): string {
    if c == d.OldCollection() then d.NewCollection() else c
  }

  lemma KeysDiffer(c: string, d: Direction)
    ensures KeyOf(c, d.OldKind()) != KeyOf(c, d.NewKind())
  {
    var a, b := KeyOf(c, d.OldKind()), KeyOf(c, d.NewKind());
    if c == REFLECTIONS {
      assert a[10] != b[10];
    } else {
      assert a[0] != b[0];
    }
  }

  lemma LinksExclusive(d: Direction)
    ensures Exclusive(LinkPrefix(d.OldKind()), LinkPrefix(d.NewKind()))
  {
    assert LinkPrefix(d.OldKind())[9] != LinkPrefix(d.NewKind())[9];
  }

  lemma RecordUndone(c: string, fields: map<string, Json>, d: Direction)
    requires c in Transformed(d) && TransformRecord(c, fields, d).Ok?
    ensures var there := TransformRecord(c, fields, d).value;
            && there.Obj? && TransformRecord(Moved(c, d), there.fields, d.Flip()).Ok?
            && (TransformRecord(Moved(c, d), there.fields, d.Flip()).value == Obj(fields)
                <==> CleanPayload(c, Obj(fields), d))
  {
    if c == NOTIFICATIONS {
      NotificationUndone(fields, d);
    } else {
      SameKeys(c, d);
      KeysDiffer(c, d);
      RenameUndone(fields, KeyOf(c, d.OldKind()), KeyOf(c, d.NewKind()));
      hide KeyOf, RenameKey;
    }
  }

  lemma SameKeys(c: string, d: Direction)
    ensures KeyOf(Moved(c, d), d.OldKind()) == KeyOf(c, d.OldKind())
    ensures KeyOf(Moved(c, d), d.NewKind()) == KeyOf(c, d.NewKind())
  {
  }

  /** A notification keeps its keys; only the prefix of its link changes. */
  lemma NotificationUndone(fields: map<string, Json>, d: Direction)
    ensures var there := TransformRecord(NOTIFICATIONS, fields, d);
            && there.Ok? && there.value.Obj?
            && var back := TransformRecord(NOTIFICATIONS, there.value.fields, d.Flip());
            && back.Ok? && (back.value == Obj(fields) <==> CleanPayload(NOTIFICATIONS, Obj(fields), d))
  {
    LinksExclusive(d);
    hide LinkPrefix, Replace, Exclusive;
    if "deep_link" in fields && fields["deep_link"].Str? {
      ReplaceUndone(fields["deep_link"].text, LinkPrefix(d.OldKind()), LinkPrefix(d.NewKind()));
      var there := TransformRecord(NOTIFICATIONS, fields, d).value.fields;
      var back := TransformRecord(NOTIFICATIONS, there, d.Flip()).value.fields;
      assert back == fields["deep_link" := back["deep_link"]];
      assert back == fields <==> back["deep_link"] == fields["deep_link"];
    }
  }

  /** One payload there and back: the way back never fails, and it restores exactly the clean payloads. */
  lemma PayloadUndone(c: string, v: Json, d: Direction)
    requires c != d.NewCollection() && TransformPayload(c, v, d).Ok?
    ensures var there := TransformPayload(c, v, d).value;
            && TransformPayload(Moved(c, d), there, d.Flip()).Ok?
            && (TransformPayload(Moved(c, d), there, d.Flip()).value == v <==> CleanPayload(c, v, d))
  {
    if c in Transformed(d) {
      assert Moved(c, d) in Transformed(d.Flip());
      hide TransformRecord, CleanPayload;
      RecordUndone(c, v.fields, d);
    } else {
      WalkUndone(v, d);
    }
  }

  lemma CleanTransforms(c: string, v: Json, d: Direction)
    requires CleanPayload(c, v, d)
    ensures TransformPayload(c, v, d).Ok?
  {
  }

  // ---------------------------------------------------------------- the whole table

  /** The `records` table: a payload per collection and id. */
  type Records = map<(string, string), Json>

  predicate Migratable(db: Records, d: Direction) {
    forall k :: k in db ==> k.0 != d.NewCollection() && TransformPayload(k.0, db[k], d).Ok?
  }

  function Origin(k: (string, string), d: Direction): (string, string) {
    (Moved(k.0, d.Flip()), k.1)
  }

  function Rewritten(db: Records, d: Direction): Records
    requires Migratable(db, d)
  {
    map k | k in db :: TransformPayload(k.0, db[k], d).value
  }

  /** `UPDATE records SET collection = new WHERE collection = old`. */
  function Relabelled(db: Records, d: Direction): Records {
    map k | k in (set r | r in db :: (Moved(r.0, d), r.1)) && Origin(k, d) in db :: db[Origin(k, d)]
  }

  function Migrated(db: Records, d: Direction): Records
    requires Migratable(db, d)
  {
    Relabelled(Rewritten(db, d), d)
  }

  /** No record uses a name that the migration introduces. */
  predicate CleanRecords(db: Records, d: Direction) {
    forall k :: k in db ==> k.0 != d.NewCollection() && CleanPayload(k.0, db[k], d)
  }

  lemma MigratedRecord(db: Records, d: Direction, r: (string, string))
    requires Migratable(db, d)
    ensures r in db ==>
              && (Moved(r.0, d), r.1) in Migrated(db, d)
              && Migrated(db, d)[(Moved(r.0, d), r.1)] == TransformPayload(r.0, db[r], d).value
    ensures r in Migrated(db, d) ==> Origin(r, d) in db && (Moved(Origin(r, d).0, d), r.1) == r
  {
    hide TransformPayload, Origin, Moved, Relabelled;
    RelabelledRecord(Rewritten(db, d), d, r);
  }

  lemma MovedBack(c: string, d: Direction)
    requires c != d.NewCollection()
    ensures Moved(Moved(c, d), d.Flip()) == c
  {
  }

  /** Relabelling merges no collections, so every record has one origin. */
  lemma RelabelledRecord(db: Records, d: Direction, r: (string, string))
    requires forall k :: k in db ==> k.0 != d.NewCollection()
    ensures r in db ==> (Moved(r.0, d), r.1) in Relabelled(db, d) && Relabelled(db, d)[(Moved(r.0, d), r.1)] == db[r]
    ensures r in Relabelled(db, d) ==> Origin(r, d) in db && (Moved(Origin(r, d).0, d), r.1) == r
  {
    hide Moved;
    if r in db {
      MovedBack(r.0, d);
    }
    if r in Relabelled(db, d) {
      var x :| x in db && (Moved(x.0, d), x.1) == r;
      MovedBack(x.0, d);
    }
  }

  /** Migrating there and back never fails, and it restores exactly the tables that used none of the new
      names before: for them, and for them only, the two migrations undo each other. */
  lemma MigrationUndone(db: Records, d: Direction)
    requires Migratable(db, d)
    ensures Migratable(Migrated(db, d), d.Flip())
    ensures Migrated(Migrated(db, d), d.Flip()) == db <==> CleanRecords(db, d)
  {
    hide Migrated, TransformPayload, CleanPayload;
    var there := Migrated(db, d);
    forall k | k in there
      ensures k.0 != d.OldCollection() && TransformPayload(k.0, there[k], d.Flip()).Ok?
    {
      MigratedRecord(db, d, k);
      var r := Origin(k, d);
      MigratedRecord(db, d, r);
      PayloadUndone(r.0, db[r], d);
    }
    var back := Migrated(there, d.Flip());
    forall r | r in db
      ensures r in back && (back[r] == db[r] <==> CleanPayload(r.0, db[r], d))
    {
      var k := (Moved(r.0, d), r.1);
      MigratedRecord(db, d, r);
      MigratedRecord(there, d.Flip(), k);
      assert (Moved(k.0, d.Flip()), k.1) == r;
      PayloadUndone(r.0, db[r], d);
    }
    forall r | r in back ensures r in db {
      MigratedRecord(there, d.Flip(), r);
      MigratedRecord(db, d, Origin(r, d.Flip()));
    }
    assert back.Keys == db.Keys;
    assert back == db <==> forall r :: r in db ==> back[r] == db[r];
  }

  /** A table that uses none of the new names can always be migrated. */
  lemma CleanIsMigratable(db: Records, d: Direction)
    requires CleanRecords(db, d)
    ensures Migratable(db, d)
  {
    forall k | k in db ensures TransformPayload(k.0, db[k], d).Ok? {
      CleanTransforms(k.0, db[k], d);
    }
  }

  // ---------------------------------------------------------------- what the migration writes

  /** `s` with the prefix exchanged, and as it was without it. */
  ghost predicate Swapped(s: string, out: string, from: string, to: string) {
    if from <= s then out == to + s[|from|..] else out == s
  }

  ghost predicate SwappedRef(ref: Json, out: Json, from: string, to: string) {
    if ref.Str? then out.Str? && Swapped(ref.text, out.text, from, to) else out == ref
  }

  /** What a walk makes of the value of one key. */
  ghost predicate FieldRewritten(key: string, was: Json, now: Json, d: Direction) {
    var from, to := if d.Upgrade? then "thread" else "conversation", if d.Upgrade? then "conversation" else "thread";
    if key == "source_type" && was == Str(from) then now == Str(to)
    else if key == "source_ref" && was.Str? then SwappedRef(was, now, from + ":", to + ":")
    else if key == "source_refs" && was.List? then
      && now.List? && |now.items| == |was.items|
      && forall i :: 0 <= i < |was.items| ==> SwappedRef(was.items[i], now.items[i], from + ":", to + ":")
    else now == Walk(was, d)
  }

  lemma FieldRewrites(key: string, was: Json, d: Direction)
    ensures FieldRewritten(key, was, WalkField(key, was, d), d)
  {
  }

  /** A walk rewrites, at every depth, `source_type` from the old kind to the new one, the prefix of
      `source_ref` and of each of the `source_refs`, and nothing else. An upgrade leads from threads to
      conversations. */
  lemma WalkRewrites(v: Json, d: Direction)
    ensures var out := Walk(v, d);
            && (v.Obj? ==>
                  && out.Obj? && out.fields.Keys == v.fields.Keys
                  && forall key :: key in v.fields ==> FieldRewritten(key, v.fields[key], out.fields[key], d))
            && (v.List? ==>
                  && out.List? && |out.items| == |v.items|
                  && forall i :: 0 <= i < |v.items| ==> out.items[i] == Walk(v.items[i], d))
            && (!v.List? && !v.Obj? ==> out == v)
  {
    if v.Obj? {
      hide FieldRewritten, WalkField;
      forall key | key in v.fields ensures FieldRewritten(key, v.fields[key], Walk(v, d).fields[key], d) {
        FieldRewrites(key, v.fields[key], d);
      }
    }
  }

  /** After a walk no old name is left where it looked, so that a second one would change nothing. */
  lemma {:induction false} WalkLeavesNoOldName(v: Json, d: Direction)
    ensures Clean(Walk(v, d), d.Flip()) && Walk(Walk(v, d), d) == Walk(v, d)
    decreases v, 0
  {
    match v
    case Obj(fields) =>
      var there := Walk(v, d).fields;
      forall key | key in fields
        ensures CleanField(key, there[key], d.Flip()) && WalkField(key, there[key], d) == there[key]
      {
        FieldLeavesNoOldName(key, fields[key], d);
      }
      assert Walk(Walk(v, d), d).fields == there;
    case List(items) =>
      var there := Walk(v, d).items;
      forall i | 0 <= i < |items| ensures Clean(there[i], d.Flip()) && Walk(there[i], d) == there[i] {
        WalkLeavesNoOldName(items[i], d);
      }
      assert Walk(Walk(v, d), d).items == there;
    case _ =>
  }

  lemma {:induction false} FieldLeavesNoOldName(key: string, item: Json, d: Direction)
    ensures var there := WalkField(key, item, d);
            CleanField(key, there, d.Flip()) && WalkField(key, there, d) == there
    decreases item, 1
  {
    KindsExclusive(d);
    if key == "source_refs" && item.List? {
      var there := WalkInPlace(key, item, d);
      forall i | 0 <= i < |item.items|
        ensures CleanRef(there.items[i], d.Flip()) && WalkRef(there.items[i], d) == there.items[i]
      {
        if item.items[i].Str? {
          OldPrefixGone(item.items[i].text, d.OldKind() + ":", d.NewKind() + ":");
        }
      }
      assert WalkInPlace(key, there, d).items == there.items;
    } else {
      WalkLeavesNoOldName(item, d);
      if key == "source_ref" && item.Str? {
        OldPrefixGone(item.text, d.OldKind() + ":", d.NewKind() + ":");
      }
    }
  }

  lemma OldPrefixGone(s: string, old': string, new': string)
    requires Exclusive(old', new')
    ensures !(old' <= Replace(s, old', new'))
  {
    if old' <= s {
      var out := new' + s[|old'|..];
      assert new' <= out;
      if old' <= out {
        ComparablePrefixes(old', new', out);
      }
    }
  }

  /** The value of one key moves to another one, unless that is taken. The other keys keep theirs. */
  ghost predicate Renames(v: Json, r: Result<Json, Error>, old': string, new': string) {
    if !v.Obj? then r == Err(NotAnObject)
    else if old' in v.fields && new' in v.fields then r == Err(BothKeys)
    else
      && r.Ok? && r.value.Obj?
      && var out := r.value.fields;
         && (old' in v.fields ==> old' !in out && new' in out && out[new'] == v.fields[old'])
         && (old' !in v.fields ==> out == v.fields)
         && (forall key :: key != old' && key != new' ==>
               (key in out <==> key in v.fields) && (key in out ==> out[key] == v.fields[key]))
  }

  /** Conversations, curator cursors and plans, and trace nodes rename their id, reflections the suggested one. */
  lemma IdsAreRenamed(c: string, v: Json, d: Direction)
    requires c in {if d.Upgrade? then "chat_threads" else "conversations", "memory_curator_cursors",
                   "memory_curator_plans", "trace_nodes", "reflection_entries"}
    ensures var thread := if c == "reflection_entries" then "suggested_thread_id" else "thread_id";
            var conversation := if c == "reflection_entries" then "suggested_conversation_id" else "conversation_id";
            Renames(v, TransformPayload(c, v, d), if d.Upgrade? then thread else conversation,
                    if d.Upgrade? then conversation else thread)
  {
    KeysDiffer(c, d);
    KeyNames(c);
    hide KeyOf, Replace;
  }

  lemma KeyNames(c: string)
    ensures KeyOf(c, "thread") == (if c == "reflection_entries" then "suggested_thread_id" else "thread_id")
    ensures KeyOf(c, "conversation")
            == (if c == "reflection_entries" then "suggested_conversation_id" else "conversation_id")
  {
  }

  /** A notification swaps the prefix of its link and keeps everything else. */
  lemma LinksAreSwapped(v: Json, d: Direction)
    ensures var r := TransformPayload("notification_outbox", v, d);
            && (!v.Obj? ==> r == Err(NotAnObject))
            && (v.Obj? ==>
                  && r.Ok? && r.value.Obj? && r.value.fields.Keys == v.fields.Keys
                  && (forall key :: key in v.fields && key != "deep_link" ==> r.value.fields[key] == v.fields[key])
                  && ("deep_link" in v.fields ==>
                        SwappedRef(v.fields["deep_link"], r.value.fields["deep_link"],
                                   if d.Upgrade? then "nuself://thread/" else "nuself://conversation/",
                                   if d.Upgrade? then "nuself://conversation/" else "nuself://thread/")))
  {
    LinkNames();
    hide LinkPrefix, KeyOf, RenameKey;
  }

  lemma LinkNames()
    ensures LinkPrefix("thread") == "nuself://thread/" && LinkPrefix("conversation") == "nuself://conversation/"
  {
  }

  /** The memory collections are walked, and the ones that no rule names stay as they are. */
  lemma OthersAreWalkedOrKept(c: string, v: Json, d: Direction)
    requires c !in {if d.Upgrade? then "chat_threads" else "conversations", "memory_curator_cursors",
                    "memory_curator_plans", "trace_nodes", "reflection_entries", "notification_outbox"}
    ensures TransformPayload(c, v, d)
            == Ok(if c in {"memory_entries", "memory_candidates", "profile_items"} then Walk(v, d) else v)
  {
  }

  /** Where the records go: an upgrade files the chat threads as conversations, a downgrade does the reverse,
      and every other record stays where it was. It needs the destination to be empty. */
  lemma RecordsMove(db: Records, d: Direction, c: string, id: string)
    ensures Migratable(db, d) <==>
              forall k :: k in db ==>
                k.0 != (if d.Upgrade? then "conversations" else "chat_threads") && TransformPayload(k.0, db[k], d).Ok?
    ensures Migratable(db, d) ==>
              var from, to := if d.Upgrade? then "chat_threads" else "conversations",
                              if d.Upgrade? then "conversations" else "chat_threads";
              var out := Migrated(db, d);
              && ((to, id) in out <==> (from, id) in db)
              && ((to, id) in out ==> out[(to, id)] == TransformPayload(from, db[(from, id)], d).value)
              && (from, id) !in out
              && (c != from && c != to ==> ((c, id) in out <==> (c, id) in db))
              && (c != from && c != to && (c, id) in db ==>
                    out[(c, id)] == TransformPayload(c, db[(c, id)], d).value)
  {
    if Migratable(db, d) {
      hide TransformPayload, Migrated;
      MigratedRecord(db, d, (d.OldCollection(), id));
      MigratedRecord(db, d, (d.NewCollection(), id));
      MigratedRecord(db, d, (c, id));
    }
  }

  // ---------------------------------------------------------------- the migration itself

  class Database {
    var records: Records

    constructor (records: Records)
      ensures this.records == records
    {
      this.records := records;
    }

    /** Rewrite the rows of one collection, one `UPDATE` at a time. */
    method TransformCollection(c: string, d: Direction) returns (r: Result<(), Error>)
      modifies this
      ensures r.Ok? <==> forall k :: k in old(records) && k.0 == c ==> TransformPayload(c, old(records)[k], d).Ok?
      ensures r.Ok? ==> records.Keys == old(records).Keys
      ensures r.Ok? ==> forall k :: k in records ==>
                records[k] == if k.0 == c then TransformPayload(c, old(records)[k], d).value else old(records)[k]
    {
      hide TransformPayload;
      var rest := set k | k in records && k.0 == c;
      ghost var rows := rest;
      while rest != {}
        invariant rest <= rows && records.Keys == old(records).Keys
        invariant forall k :: k in rows - rest ==>
                    TransformPayload(c, old(records)[k], d) == Ok(records[k])
        invariant forall k :: k in records && k !in rows - rest ==> records[k] == old(records)[k]
      {
        var k :| k in rest;
        rest := rest - {k};
        var transformed := TransformPayload(c, records[k], d);
        if transformed.Err? {
          return Err(transformed.error);
        }
        records := records[k := transformed.value];
      }
      r := Ok(());
    }

    /** Rewrite the rows of every collection that the migration touches. */
    method TransformRows(d: Direction) returns (r: Result<(), Error>)
      modifies this
      ensures r.Ok? <==> forall k :: k in old(records) ==> TransformPayload(k.0, old(records)[k], d).Ok?
      ensures r.Ok? ==> records.Keys == old(records).Keys
      ensures r.Ok? ==> forall k :: k in records ==> TransformPayload(k.0, old(records)[k], d) == Ok(records[k])
    {
      hide TransformPayload, Transformed;
      var collections := Transformed(d) + MEMORY;
      for i := 0 to |collections|
        invariant records.Keys == old(records).Keys
        invariant forall k :: k in records && k.0 in collections[..i] ==>
                    TransformPayload(k.0, old(records)[k], d) == Ok(records[k])
        invariant forall k :: k in records && k.0 !in collections[..i] ==> records[k] == old(records)[k]
      {
        CollectionsDistinct(d, i);
        assert collections[..i + 1] == collections[..i] + [collections[i]];
        r := TransformCollection(collections[i], d);
        if r.Err? {
          return;
        }
      }
      assert collections[..|collections|] == collections;
      forall k | k in records ensures TransformPayload(k.0, old(records)[k], d) == Ok(records[k]) {
        OthersUntouched(k.0, old(records)[k], d);
      }
      r := Ok(());
    }

    method TransformRecords(d: Direction) returns (r: Result<(), Error>)
      modifies this
      ensures r.Ok? <==> Migratable(old(records), d)
      ensures r.Ok? ==> records == Migrated(old(records), d)
    {
      hide TransformPayload, Relabelled;
      if exists k :: k in records && k.0 == d.NewCollection() {
        return Err(DestinationExists);
      }
      r := TransformRows(d);
      if r.Err? {
        return;
      }
      assert records == Rewritten(old(records), d);
      records := Relabelled(records, d);
    }

    /** One step of the migration script: on an error the surrounding transaction rolls back. */
    method Migrate(d: Direction) returns (r: Result<(), Error>)
      modifies this
      ensures r.Ok? <==> Migratable(old(records), d)
      ensures records == if r.Ok? then Migrated(old(records), d) else old(records)
    {
      var saved := records;
      r := TransformRecords(d);
      if r.Err? {
        records := saved;
      }
    }
  }

  lemma CollectionsDistinct(d: Direction, i: nat)
    requires i < |Transformed(d) + MEMORY|
    ensures (Transformed(d) + MEMORY)[i] !in (Transformed(d) + MEMORY)[..i]
  {
    if d == Upgrade {
      assert Transformed(d) == ["chat_threads", CURSORS, PLANS, TRACES, REFLECTIONS, NOTIFICATIONS];
    } else {
      assert Transformed(d) == ["conversations", CURSORS, PLANS, TRACES, REFLECTIONS, NOTIFICATIONS];
    }
  }

  lemma OthersUntouched(c: string, v: Json, d: Direction)
    ensures c !in Transformed(d) + MEMORY ==> TransformPayload(c, v, d) == Ok(v)
  {
  }
}
