/**
 The preset store as its users see it: a map from case-folded sanitized names to
 configurations, holding at most eight. Every run of saves, loads and deletes gives the
 replies the map gives: first on the store's list of entries, then on the store itself.
 */
module PresetMap {
  import opened Wrappers
  import opened RcTypes
  import opened PresetNames
  import opened PresetStore

  type Presets = map<string, PersistedConfig>

  datatype Op = Save(saveName: string, cfg: PersistedConfig) | Load(loadName: string) | Delete(deleteName: string)

  datatype Reply = Done | Got(cfg: PersistedConfig) | Refused(error: PresetError)

  // ----- The two machines -----

  /** One request on the store's list, as the contracts of the store's methods state it. */
  function ListStep(entries: seq<Entry>, op: Op): (seq<Entry>, Reply) {
    match op
    case Save(name, cfg) =>
      (match Saved(entries, name, cfg)
       case Success(after) => (after, Done)
       case Failure(e) => (entries, Refused(e)))
    case Load(name) =>
      (match Loaded(entries, name)
       case Success(cfg) => (entries, Got(cfg))
       case Failure(e) => (entries, Refused(e)))
    case Delete(name) =>
      (match Removed(entries, name)
       case Success(after) => (after, Done)
       case Failure(e) => (entries, Refused(e)))
  }

  function NameKey(raw: string): string {
    Fold(Sanitize(raw))
  }

  function MapStep(m: Presets, op: Op): (Presets, Reply) {
    match op
    case Save(name, cfg) =>
      if NameKey(name) in m || |m| < MAX_USER_PRESETS then (m[NameKey(name) := cfg], Done) else (m, Refused(LimitReached))
    case Load(name) =>
      if NameKey(name) !in m then (m, Refused(UnknownPreset))
      else (match Checked(m[NameKey(name)])
            case Success(cfg) => (m, Got(cfg))
            case Failure(e) => (m, Refused(e)))
    case Delete(name) =>
      if NameKey(name) in m then (m - {NameKey(name)}, Done) else (m, Refused(UnknownPreset))
  }

  function ListRun(entries: seq<Entry>, ops: seq<Op>): (seq<Entry>, seq<Reply>)
    decreases |ops|
  {
    if ops == [] then (entries, [])
    else
      var (mid, reply) := ListStep(entries, ops[0]);
      var (end, replies) := ListRun(mid, ops[1..]);
      (end, [reply] + replies)
  }

  function MapRun(m: Presets, ops: seq<Op>): (Presets, seq<Reply>)
    decreases |ops|
  {
    if ops == [] then (m, [])
    else
      var (mid, reply) := MapStep(m, ops[0]);
      var (end, replies) := MapRun(mid, ops[1..]);
      (end, [reply] + replies)
  }

  // ----- The refinement relation -----

  function Key(e: Entry): string {
    Fold(e.name)
  }

  predicate DistinctNames(entries: seq<Entry>) {
    forall i, j | 0 <= i < j < |entries| :: Key(entries[i]) != Key(entries[j])
  }

  /** Entry `e` is an undamaged binding of `m` under a sanitized name. */
  predicate Binds(e: Entry, m: Presets) {
    IsCleanName(e.name) && Key(e) in m && e.cfg == Some(m[Key(e)])
  }

  predicate Agrees(entries: seq<Entry>, m: Presets) {
    forall i | 0 <= i < |entries| :: Binds(entries[i], m)
  }

  predicate HasKey(entries: seq<Entry>, k: string) {
    exists i | 0 <= i < |entries| :: Key(entries[i]) == k
  }

  predicate Covers(entries: seq<Entry>, m: Presets) {
    forall k | k in m :: HasKey(entries, k)
  }

  /** The list holds every binding of the map exactly once. */
  predicate Represents(entries: seq<Entry>, m: Presets) {
    |entries| == |m| <= MAX_USER_PRESETS && DistinctNames(entries) && Agrees(entries, m) && Covers(entries, m)
  }

  lemma SlotIsKey(entries: seq<Entry>, m: Presets, raw: string)
    requires Represents(entries, m)
    ensures |entries| == |m|
    ensures SlotOf(entries, raw) >= 0 <==> NameKey(raw) in m
    ensures SlotOf(entries, raw) >= 0 ==> Key(entries[SlotOf(entries, raw)]) == NameKey(raw)
  {
    hide Fold, Sanitize, FindSlot, IsCleanName;
    var slot := SlotOf(entries, raw);
    if NameKey(raw) in m {
      assert HasKey(entries, NameKey(raw));
      var i :| 0 <= i < |entries| && Key(entries[i]) == NameKey(raw);
      assert NamesOf(entries)[i] == entries[i].name;
    }
    if slot >= 0 {
      assert NamesOf(entries)[slot] == entries[slot].name;
      assert Binds(entries[slot], m);
    }
  }

  lemma BindingSurvives(e: Entry, m: Presets, k: string, cfg: PersistedConfig)
    requires Binds(e, m) && Key(e) != k
    ensures Binds(e, m[k := cfg]) && Binds(e, m - {k})
  {}

  lemma HasKeyAt(entries: seq<Entry>, i: nat)
    requires i < |entries|
    ensures HasKey(entries, Key(entries[i]))
  {}

  lemma ReplacedAgrees(entries: seq<Entry>, m: Presets, slot: nat, cfg: PersistedConfig)
    requires Represents(entries, m) && slot < |entries|
    ensures var after := entries[slot := entries[slot].(cfg := Some(cfg))];
            Agrees(after, m[Key(entries[slot]) := cfg]) && forall i | 0 <= i < |entries| :: Key(after[i]) == Key(entries[i])
  {
    hide Covers, IsCleanName, Fold;
    var key := Key(entries[slot]);
    var after, m' := entries[slot := entries[slot].(cfg := Some(cfg))], m[key := cfg];
    assert Binds(entries[slot], m);
    assert Binds(after[slot], m');
    hide Binds;
    forall i | 0 <= i < |after|
      ensures Key(after[i]) == Key(entries[i]) && Binds(after[i], m')
    {
      assert Binds(entries[i], m);
      if i != slot {
        DistinctAt(entries, i, slot);
        hide Key;
        BindingSurvives(entries[i], m, key, cfg);
      }
    }
  }

  /** Distinctness and coverage only depend on the keys. */
  lemma SameKeys(entries: seq<Entry>, after: seq<Entry>, m: Presets, m': Presets)
    requires |after| == |entries| && forall i | 0 <= i < |entries| :: Key(after[i]) == Key(entries[i])
    requires m.Keys == m'.Keys && DistinctNames(entries) && Covers(entries, m)
    ensures DistinctNames(after) && Covers(after, m')
  {
    hide Key;
    forall i, j | 0 <= i < j < |after|
      ensures Key(after[i]) != Key(after[j])
    {
      DistinctAt(entries, i, j);
    }
    hide DistinctNames;
    forall k | k in m'
      ensures HasKey(after, k)
    {
      assert k in m && HasKey(entries, k);
      var i :| 0 <= i < |entries| && Key(entries[i]) == k;
      HasKeyAt(after, i);
    }
  }

  lemma Replaced(entries: seq<Entry>, m: Presets, slot: nat, cfg: PersistedConfig)
    requires Represents(entries, m) && slot < |entries|
    ensures Represents(entries[slot := entries[slot].(cfg := Some(cfg))], m[Key(entries[slot]) := cfg])
  {
    ReplacedAgrees(entries, m, slot, cfg);
    assert Binds(entries[slot], m);
    KeyInMap(entries[slot], m);
    hide Key, Binds, Agrees, DistinctNames, Covers;
    var after, m' := entries[slot := entries[slot].(cfg := Some(cfg))], m[Key(entries[slot]) := cfg];
    assert m'.Keys == m.Keys && |m'.Keys| == |m'| && |m.Keys| == |m|;
    SameKeys(entries, after, m, m');
  }

  lemma DistinctAt(entries: seq<Entry>, i: nat, j: nat)
    requires DistinctNames(entries) && i < |entries| && j < |entries| && i != j
    ensures Key(entries[i]) != Key(entries[j])
  {}

  lemma AppendedAgrees(entries: seq<Entry>, m: Presets, last: Entry, cfg: PersistedConfig)
    requires Represents(entries, m) && IsCleanName(last.name) && last.cfg == Some(cfg) && Key(last) !in m
    ensures Agrees(entries + [last], m[Key(last) := cfg]) && DistinctNames(entries + [last])
  {
    hide Covers, IsCleanName, Fold;
    var after, m' := entries + [last], m[Key(last) := cfg];
    assert Binds(last, m');
    forall i | 0 <= i < |entries|
      ensures Binds(entries[i], m') && Key(entries[i]) != Key(last)
    {
      assert Binds(entries[i], m);
      BindingSurvives(entries[i], m, Key(last), cfg);
    }
    hide Key, Binds;
    assert forall i | 0 <= i < |entries| :: after[i] == entries[i];
  }

  lemma AppendedCovers(entries: seq<Entry>, m: Presets, last: Entry, cfg: PersistedConfig)
    requires Covers(entries, m)
    ensures Covers(entries + [last], m[Key(last) := cfg])
  {
    hide Key;
    var after := entries + [last];
    forall k | k in m[Key(last) := cfg]
      ensures HasKey(after, k)
    {
      if k == Key(last) {
        HasKeyAt(after, |entries|);
      } else {
        assert HasKey(entries, k);
        var i :| 0 <= i < |entries| && Key(entries[i]) == k;
        HasKeyAt(after, i);
      }
    }
  }

  lemma Appended(entries: seq<Entry>, m: Presets, name: StoredName, cfg: PersistedConfig)
    requires Represents(entries, m) && |m| < MAX_USER_PRESETS
    requires IsCleanName(name) && Fold(name) !in m
    ensures Represents(entries + [Entry(name, Some(cfg))], m[Fold(name) := cfg])
  {
    hide Fold, IsCleanName, Agrees, DistinctNames, Covers;
    AppendedAgrees(entries, m, Entry(name, Some(cfg)), cfg);
    AppendedCovers(entries, m, Entry(name, Some(cfg)), cfg);
    assert m[Fold(name) := cfg].Keys == m.Keys + {Fold(name)} && |m.Keys| == |m|;
  }

  /** Where the entry at `i` of the shortened list was before `slot` was dropped. */
  function Origin(slot: nat, i: nat): nat {
    if i < slot then i else i + 1
  }

  function Without(entries: seq<Entry>, slot: nat): (r: seq<Entry>)
    requires slot < |entries|
    ensures |r| == |entries| - 1
    ensures forall i | 0 <= i < |r| :: r[i] == entries[Origin(slot, i)]
  {
    entries[..slot] + entries[slot + 1..]
  }

  lemma DroppedAgrees(entries: seq<Entry>, m: Presets, slot: nat)
    requires Represents(entries, m) && slot < |entries|
    ensures Agrees(Without(entries, slot), m - {Key(entries[slot])}) && DistinctNames(Without(entries, slot))
  {
    hide Key, Binds, Without, Covers;
    var after := Without(entries, slot);
    forall i | 0 <= i < |after|
      ensures Binds(after[i], m - {Key(entries[slot])})
    {
      var j := Origin(slot, i);
      assert after[i] == entries[j] && Binds(entries[j], m) && Binds(entries[slot], m);
      KeyInMap(entries[slot], m);
      DistinctAt(entries, j, slot);
      BindingSurvives(entries[j], m, Key(entries[slot]), m[Key(entries[slot])]);
    }
    forall i, j | 0 <= i < j < |after|
      ensures Key(after[i]) != Key(after[j])
    {
      DistinctAt(entries, Origin(slot, i), Origin(slot, j));
    }
  }

  lemma DroppedCovers(entries: seq<Entry>, m: Presets, slot: nat)
    requires Represents(entries, m) && slot < |entries|
    ensures Covers(Without(entries, slot), m - {Key(entries[slot])})
  {
    hide Key, Binds, Without, Agrees, DistinctNames;
    var after := Without(entries, slot);
    forall k | k in m && k != Key(entries[slot])
      ensures HasKey(after, k)
    {
      assert HasKey(entries, k);
      var i :| 0 <= i < |entries| && Key(entries[i]) == k;
      var j := if i < slot then i else i - 1;
      assert Origin(slot, j) == i;
      HasKeyAt(after, j);
    }
  }

  lemma Dropped(entries: seq<Entry>, m: Presets, slot: nat)
    requires Represents(entries, m) && slot < |entries|
    ensures Represents(Without(entries, slot), m - {Key(entries[slot])})
  {
    DroppedAgrees(entries, m, slot);
    DroppedCovers(entries, m, slot);
    assert Binds(entries[slot], m);
    KeyInMap(entries[slot], m);
    hide Key, Binds, Without, Agrees, DistinctNames, Covers;
    assert (m - {Key(entries[slot])}).Keys == m.Keys - {Key(entries[slot])};
  }

  lemma KeyInMap(e: Entry, m: Presets)
    requires Binds(e, m)
    ensures Key(e) in m
  {}

  lemma SaveRefines(entries: seq<Entry>, m: Presets, name: string, cfg: PersistedConfig)
    requires Represents(entries, m)
    ensures ListStep(entries, Save(name, cfg)).1 == MapStep(m, Save(name, cfg)).1
    ensures Represents(ListStep(entries, Save(name, cfg)).0, MapStep(m, Save(name, cfg)).0)
  {
    hide Represents, Fold, Sanitize, SlotOf, IsCleanName;
    SlotIsKey(entries, m, name);
    SanitizeIsClean(name);
    var slot := SlotOf(entries, name);
    if slot >= 0 {
      Replaced(entries, m, slot, cfg);
    } else if |m| < MAX_USER_PRESETS {
      Appended(entries, m, Sanitize(name), cfg);
    }
  }

  lemma DeleteRefines(entries: seq<Entry>, m: Presets, name: string)
    requires Represents(entries, m)
    ensures ListStep(entries, Delete(name)).1 == MapStep(m, Delete(name)).1
    ensures Represents(ListStep(entries, Delete(name)).0, MapStep(m, Delete(name)).0)
  {
    hide Represents, Fold, Sanitize, SlotOf, Kept, IsCleanName;
    SlotIsKey(entries, m, name);
    AllIntact(entries, m);
    var slot := SlotOf(entries, name);
    if slot >= 0 {
      KeptIsRemoval(entries, slot, |entries|);
      Dropped(entries, m, slot);
      assert entries[slot + 1..|entries|] == entries[slot + 1..];
    }
  }

  lemma AllIntact(entries: seq<Entry>, m: Presets)
    requires Represents(entries, m)
    ensures forall i | 0 <= i < |entries| :: entries[i].cfg.Some?
  {
    forall i | 0 <= i < |entries| ensures entries[i].cfg.Some? {
      assert Binds(entries[i], m);
    }
  }

  lemma StepRefines(entries: seq<Entry>, m: Presets, op: Op)
    requires Represents(entries, m)
    ensures ListStep(entries, op).1 == MapStep(m, op).1
    ensures Represents(ListStep(entries, op).0, MapStep(m, op).0)
  {
    match op
    case Save(name, cfg) => SaveRefines(entries, m, name, cfg);
    case Delete(name) => DeleteRefines(entries, m, name);
    case Load(name) =>
      SlotIsKey(entries, m, name);
      var slot := SlotOf(entries, name);
      if slot >= 0 {
        assert Binds(entries[slot], m);
      }
      hide SlotOf;
  }

  /** Over any run of requests the list and the map answer alike, and stay in step. */
  lemma {:induction false} RunRefines(entries: seq<Entry>, m: Presets, ops: seq<Op>)
    requires Represents(entries, m)
    ensures ListRun(entries, ops).1 == MapRun(m, ops).1
    ensures Represents(ListRun(entries, ops).0, MapRun(m, ops).0)
    decreases |ops|
  {
    if ops != [] {
      StepRefines(entries, m, ops[0]);
      hide ListStep, MapStep, Represents;
      RunRefines(ListStep(entries, ops[0]).0, MapStep(m, ops[0]).0, ops[1..]);
    }
  }

  /** An empty flash represents the empty map. */
  lemma EmptyStoreRepresents()
    ensures Represents(Entries(map[]), map[]) && Tidy(map[])
  {}

  // ----- The store itself -----

  /**
   One request served by the store. When no NVS call fails this is one ListStep, and blobs
   stay only below the count.
   */
  method Serve(store: Store, op: Op) returns (reply: Reply)
    modifies store
    ensures store.ops >= old(store.ops)
    ensures store.NoFaults(old(store.ops), store.ops) ==>
              && (Entries(store.nvs), reply) == ListStep(old(Entries(store.nvs)), op)
              && (old(Tidy(store.nvs)) ==> Tidy(store.nvs))
  {
    hide Entries, Tidy, Saved, Loaded, Removed;
    match op {
      case Save(name, cfg) =>
        var e := store.SaveUserPresetBlob(name, cfg);
        reply := if e.Some? then Refused(e.value) else Done;
      case Load(name) =>
        var r := store.LoadUserPreset(name);
        reply := if r.Success? then Got(r.value) else Refused(r.error);
      case Delete(name) =>
        var e := store.DeleteUserPreset(name);
        reply := if e.Some? then Refused(e.value) else Done;
    }
  }

  /**
   A run of requests served by the store. When no NVS call fails, a store that represents
   a map answers as that map and ends representing what the map ends as.
   */
  method ServeAll(store: Store, ops: seq<Op>, ghost m: Presets) returns (replies: seq<Reply>)
    modifies store
    ensures store.ops >= old(store.ops)
    ensures store.NoFaults(old(store.ops), store.ops) && old(Represents(Entries(store.nvs), m)) ==>
              && replies == MapRun(m, ops).1
              && Represents(Entries(store.nvs), MapRun(m, ops).0)
              && (old(Tidy(store.nvs)) ==> Tidy(store.nvs))
    decreases |ops|
  {
    hide Entries, Tidy, Represents, ListStep, MapStep;
    replies := [];
    if ops != [] {
      ghost var before := Entries(store.nvs);
      var reply := Serve(store, ops[0]);
      if Represents(before, m) {
        StepRefines(before, m, ops[0]);
      }
      var rest := ServeAll(store, ops[1..], MapStep(m, ops[0]).0);
      replies := [reply] + rest;
    }
  }

  /** The same from an empty flash, which represents the empty map. */
  method ServeFromEmpty(store: Store, ops: seq<Op>) returns (replies: seq<Reply>)
    requires store.nvs == map[]
    modifies store
    ensures store.ops >= old(store.ops)
    ensures store.NoFaults(old(store.ops), store.ops) ==>
              && replies == MapRun(map[], ops).1
              && Represents(Entries(store.nvs), MapRun(map[], ops).0)
              && Tidy(store.nvs)
  {
    EmptyStoreRepresents();
    hide Entries, Tidy, Represents, MapRun;
    replies := ServeAll(store, ops, map[]);
  }

  // ----- What a user can rely on -----

  /** What a name is bound to, and what loading it then answers. */
  function Bound(m: Presets, k: string): Option<PersistedConfig> {
    if k in m then Some(m[k]) else None
  }

  function LoadAnswer(bound: Option<PersistedConfig>): Reply {
    match bound
    case None => Refused(UnknownPreset)
    case Some(cfg) =>
      (match Checked(cfg)
       case Success(c) => Got(c)
       case Failure(e) => Refused(e))
  }

  /** An acknowledged save or delete of the name. */
  predicate Touches(op: Op, reply: Reply, k: string) {
    match op
    case Save(name, _) => reply == Done && NameKey(name) == k
    case Delete(name) => reply == Done && NameKey(name) == k
    case Load(_) => false
  }

  lemma {:induction false} RunAnswersAll(m: Presets, ops: seq<Op>)
    ensures |MapRun(m, ops).1| == |ops|
    decreases |ops|
  {
    hide MapStep;
    if ops != [] {
      RunAnswersAll(MapStep(m, ops[0]).0, ops[1..]);
    }
  }

  lemma StepBinds(m: Presets, op: Op, k: string)
    ensures var (after, reply) := MapStep(m, op);
            Bound(after, k) ==
              if !Touches(op, reply, k) then Bound(m, k) else if op.Save? then Some(op.cfg) else None
  {
    hide Fold, Sanitize;
  }

  /** A name no acknowledged request touches from request `i` on is bound as it was then. */
  lemma {:induction false} UntouchedStaysBound(m: Presets, ops: seq<Op>, k: string)
    requires |MapRun(m, ops).1| == |ops|
    requires forall j | 0 <= j < |ops| :: !Touches(ops[j], MapRun(m, ops).1[j], k)
    ensures Bound(MapRun(m, ops).0, k) == Bound(m, k)
    decreases |ops|
  {
    hide MapStep, Bound, Touches;
    if ops != [] {
      var (mid, reply) := MapStep(m, ops[0]);
      StepBinds(m, ops[0], k);
      var replies, rest := MapRun(m, ops).1, MapRun(mid, ops[1..]).1;
      assert replies == [reply] + rest;
      forall j | 0 <= j < |ops| - 1
        ensures !Touches(ops[1..][j], rest[j], k)
      {
        assert !Touches(ops[j + 1], replies[j + 1], k);
      }
      assert !Touches(ops[0], replies[0], k);
      UntouchedStaysBound(mid, ops[1..], k);
    }
  }

  /** Request `i` is the last acknowledged one on the name. */
  ghost predicate LastTouch(ops: seq<Op>, replies: seq<Reply>, k: string, i: nat)
    requires |replies| == |ops|
  {
    && i < |ops| && Touches(ops[i], replies[i], k)
    && forall j | i < j < |ops| :: !Touches(ops[j], replies[j], k)
  }

  /** The last acknowledged save or delete of a name decides what it is bound to. */
  lemma {:induction false} LastTouchDecides(m: Presets, ops: seq<Op>, k: string, i: nat)
    ensures |MapRun(m, ops).1| == |ops|
    ensures LastTouch(ops, MapRun(m, ops).1, k, i) ==>
              Bound(MapRun(m, ops).0, k) == if ops[i].Save? then Some(ops[i].cfg) else None
    decreases |ops|
  {
    hide MapStep, Bound, Touches;
    RunAnswersAll(m, ops);
    if LastTouch(ops, MapRun(m, ops).1, k, i) {
      var (mid, reply) := MapStep(m, ops[0]);
      StepBinds(m, ops[0], k);
      var replies, rest := MapRun(m, ops).1, MapRun(mid, ops[1..]).1;
      assert replies == [reply] + rest;
      forall j | 0 <= j < |ops| - 1
        ensures ops[1..][j] == ops[j + 1] && rest[j] == replies[j + 1]
      {}
      if i == 0 {
        forall j | 0 <= j < |ops| - 1
          ensures !Touches(ops[1..][j], rest[j], k)
        {
          assert !Touches(ops[j + 1], replies[j + 1], k);
        }
        UntouchedStaysBound(mid, ops[1..], k);
      } else {
        forall j | i - 1 < j < |ops| - 1
          ensures !Touches(ops[1..][j], rest[j], k)
        {
          assert !Touches(ops[j + 1], replies[j + 1], k);
        }
        LastTouchDecides(mid, ops[1..], k, i - 1);
        assert LastTouch(ops[1..], rest, k, i - 1);
      }
    }
  }

  lemma LoadReads(m: Presets, name: string)
    ensures MapStep(m, Load(name)) == (m, LoadAnswer(Bound(m, NameKey(name))))
  {}

  /**
   A load after any run of requests on the store: it returns what the last acknowledged
   save of that name, in any spelling, stored; after an acknowledged delete it is unknown;
   and a name nobody touched loads as it did before.
   */
  method LoadAfter(store: Store, ops: seq<Op>, name: string, ghost m: Presets) returns (replies: seq<Reply>, loaded: Reply)
    modifies store
    ensures store.NoFaults(old(store.ops), store.ops) && old(Represents(Entries(store.nvs), m)) ==>
              && |replies| == |ops|
              && ((forall j | 0 <= j < |ops| :: !Touches(ops[j], replies[j], NameKey(name))) ==>
                    loaded == LoadAnswer(Bound(m, NameKey(name))))
              && forall i: nat | LastTouch(ops, replies, NameKey(name), i) ::
                   loaded == LoadAnswer(if ops[i].Save? then Some(ops[i].cfg) else None)
  {
    hide Entries, Tidy, Represents, ListStep, MapStep, MapRun, NameKey, Touches, Bound, LoadAnswer;
    var k := NameKey(name);
    replies := ServeAll(store, ops, m);
    ghost var mid, end := Entries(store.nvs), MapRun(m, ops).0;
    loaded := Serve(store, Load(name));
    RunAnswersAll(m, ops);
    LoadReads(end, name);
    if Represents(mid, end) && replies == MapRun(m, ops).1 {
      StepRefines(mid, end, Load(name));
      if forall j | 0 <= j < |ops| :: !Touches(ops[j], replies[j], k) {
        UntouchedStaysBound(m, ops, k);
      }
      forall i: nat | LastTouch(ops, replies, k, i)
        ensures Bound(end, k) == if ops[i].Save? then Some(ops[i].cfg) else None
      {
        LastTouchDecides(m, ops, k, i);
      }
    }
  }

  /** After an acknowledged save, that name (in any case) loads the saved configuration and every other name loads as before. */
  method SaveThenLoad(store: Store, name: string, other: string, cfg: PersistedConfig, ghost m: Presets)
    returns (saved: Reply, loaded: Reply)
    modifies store
    ensures store.NoFaults(old(store.ops), store.ops) && old(Represents(Entries(store.nvs), m)) && saved == Done
            && cfg.magic == CONFIG_MAGIC && cfg.version == CONFIG_VERSION ==>
              loaded == if NameKey(other) == NameKey(name) then Got(cfg) else MapStep(m, Load(other)).1
  {
    LoadReads(m, other);
    hide Entries, Represents, NameKey, MapStep;
    var replies;
    replies, loaded := LoadAfter(store, [Save(name, cfg)], other, m);
    assert |replies| == 1 && replies[0] == Done && NameKey(other) == NameKey(name) ==>
        LastTouch([Save(name, cfg)], replies, NameKey(other), 0);
    saved := if replies == [] then Refused(UnknownPreset) else replies[0];
  }

  /** Two spellings reach the same preset exactly when what the sanitizer leaves of them differs in letter case only. */
  lemma SameKeyIff(a: string, b: string)
    ensures NameKey(a) == NameKey(b) <==> DiffersInCaseOnly(Sanitize(a), Sanitize(b))
    ensures DiffersInCaseOnly(a, b) ==> NameKey(a) == NameKey(b)
  {
    SameNameIff(Sanitize(a), Sanitize(b));
    if DiffersInCaseOnly(a, b) {
      SanitizeKeepsCase(a, b);
    }
    hide Sanitize, Fold, DiffersInCaseOnly;
  }

  /**
   After an acknowledged save, a load under any spelling that differs in letter case only
   returns that configuration, and a load under a name that differs otherwise, once
   sanitized, answers as before the save.
   */
  method SaveThenLoadAnyCase(store: Store, name: string, other: string, cfg: PersistedConfig, ghost m: Presets)
    returns (saved: Reply, loaded: Reply)
    modifies store
    ensures store.NoFaults(old(store.ops), store.ops) && old(Represents(Entries(store.nvs), m)) && saved == Done
            && cfg.magic == CONFIG_MAGIC && cfg.version == CONFIG_VERSION ==>
              && (DiffersInCaseOnly(name, other) ==> loaded == Got(cfg))
              && (!DiffersInCaseOnly(Sanitize(name), Sanitize(other)) ==> loaded == MapStep(m, Load(other)).1)
  {
    SameKeyIff(name, other);
    hide Entries, Represents, NameKey, MapStep, Sanitize, DiffersInCaseOnly;
    saved, loaded := SaveThenLoad(store, name, other, cfg, m);
  }

  /** After an acknowledged delete, that name is unknown and every other name loads as before. */
  method DeleteThenLoad(store: Store, name: string, other: string, ghost m: Presets) returns (deleted: Reply, loaded: Reply)
    modifies store
    ensures store.NoFaults(old(store.ops), store.ops) && old(Represents(Entries(store.nvs), m)) && deleted == Done ==>
              loaded == if NameKey(other) == NameKey(name) then Refused(UnknownPreset) else MapStep(m, Load(other)).1
  {
    LoadReads(m, other);
    hide Entries, Represents, NameKey, MapStep;
    var replies;
    replies, loaded := LoadAfter(store, [Delete(name)], other, m);
    assert |replies| == 1 && replies[0] == Done && NameKey(other) == NameKey(name) ==>
        LastTouch([Delete(name)], replies, NameKey(other), 0);
    deleted := if replies == [] then Refused(UnknownPreset) else replies[0];
  }
}
