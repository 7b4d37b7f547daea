/**
 The user preset store of main/preset_store.cpp: a directory of names plus numbered
 configuration blobs in a key-value flash store (NVS).

 `Entries` reads the store as an ordered list of named configurations. Every method is
 proved against an operation on that list; the list in turn refines a bounded,
 case-insensitive map (module PresetMap).

 NVS calls draw their outcome from the oracle `fails`, one draw per open, read, write,
 erase and commit, so the contracts also say what a failed call may leave behind or lose.
 */
module PresetStore {
  import opened Wrappers
  import opened RcTypes
  import opened PresetNames

  type StoredName = s: string | |s| <= MAX_NAME witness ""

  type NameTable = s: seq<StoredName> | |s| == MAX_USER_PRESETS witness ["", "", "", "", "", "", "", ""]

  datatype Directory = Directory(magic: nat, version: nat, count: nat, names: NameTable)

  /** A stored blob; `nvs_get_blob` into a structure of another size fails. */
  datatype Blob = ConfigBlob(cfg: PersistedConfig) | DirectoryBlob(dir: Directory) | OtherBlob

  datatype PresetError =
    | UnknownPreset
    | LimitReached
    | NvsUnavailable
    | WriteFailed
    | Corrupted
    | InvalidMagic
    | Obsolete

  const DIRECTORY_KEY := "preset_dir"

  const NO_NAMES: NameTable := ["", "", "", "", "", "", "", ""]

  const FRESH_DIRECTORY := Directory(CONFIG_MAGIC, DIRECTORY_VERSION, 0, NO_NAMES)

  function PresetKey(slot: nat): string
    requires slot < MAX_USER_PRESETS
  {
    "pr" + [Digit(slot)]
  }

  lemma KeysAreDistinct()
    ensures forall i, j | 0 <= i < j < MAX_USER_PRESETS :: PresetKey(i) != PresetKey(j)
    ensures forall i | 0 <= i < MAX_USER_PRESETS :: PresetKey(i) != DIRECTORY_KEY
  {
    forall i, j | 0 <= i < j < MAX_USER_PRESETS ensures PresetKey(i) != PresetKey(j) {
      assert PresetKey(i)[2] != PresetKey(j)[2];
    }
    forall i | 0 <= i < MAX_USER_PRESETS ensures PresetKey(i) != DIRECTORY_KEY {
      assert |PresetKey(i)| == 3 && |DIRECTORY_KEY| == 10;
    }
  }

  // ----- The store as a list -----

  /** A slot's name, and its configuration unless the blob is missing or has the wrong size. */
  datatype Entry = Entry(name: StoredName, cfg: Option<PersistedConfig>)

  function DirectoryOf(nvs: map<string, Blob>): (d: Directory)
    ensures d.count <= MAX_USER_PRESETS && d.magic == CONFIG_MAGIC && d.version == DIRECTORY_VERSION
  {
    if DIRECTORY_KEY !in nvs || !nvs[DIRECTORY_KEY].DirectoryBlob? then FRESH_DIRECTORY
    else
      var dir := nvs[DIRECTORY_KEY].dir;
      if dir.magic != CONFIG_MAGIC || dir.version != DIRECTORY_VERSION then FRESH_DIRECTORY
      else if dir.count > MAX_USER_PRESETS then dir.(count := MAX_USER_PRESETS)
      else dir
  }

  function ConfigAt(nvs: map<string, Blob>, slot: nat): Option<PersistedConfig>
    requires slot < MAX_USER_PRESETS
  {
    var key := PresetKey(slot);
    if key in nvs && nvs[key].ConfigBlob? then Some(nvs[key].cfg) else None
  }

  /** The listing a directory gives over the current blobs. */
  function Listing(nvs: map<string, Blob>, dir: Directory): (e: seq<Entry>)
    requires dir.count <= MAX_USER_PRESETS
    ensures |e| == dir.count
    ensures forall i | 0 <= i < |e| :: e[i] == Entry(dir.names[i], ConfigAt(nvs, i))
  {
    seq(dir.count, i requires 0 <= i < dir.count => Entry(dir.names[i], ConfigAt(nvs, i)))
  }

  function Entries(nvs: map<string, Blob>): seq<Entry> {
    Listing(nvs, DirectoryOf(nvs))
  }

  function NamesOf(entries: seq<Entry>): (r: seq<string>)
    ensures |r| == |entries| && forall i | 0 <= i < |r| :: r[i] == entries[i].name
  {
    seq(|entries|, i requires 0 <= i < |entries| => entries[i].name)
  }

  /** No blob is stored for a slot at or above the count. */
  predicate Tidy(nvs: map<string, Blob>) {
    forall slot | DirectoryOf(nvs).count <= slot < MAX_USER_PRESETS :: PresetKey(slot) !in nvs
  }

  predicate IsPresetKey(key: string) {
    key == DIRECTORY_KEY || exists slot | 0 <= slot < MAX_USER_PRESETS :: PresetKey(slot) == key
  }

  /** Nothing outside the preset store was touched. */
  predicate SameElsewhere(before: map<string, Blob>, after: map<string, Blob>) {
    && (forall k | k in before && !IsPresetKey(k) :: k in after && after[k] == before[k])
    && (forall k | k in after && !IsPresetKey(k) :: k in before)
  }

  // ----- Operations on the list -----

  function SlotOf(entries: seq<Entry>, raw: string): (r: int)
    ensures -1 <= r < |entries|
  {
    FindSlot(NamesOf(entries), Sanitize(raw))
  }

  function Saved(entries: seq<Entry>, raw: string, cfg: PersistedConfig): Result<seq<Entry>, PresetError>
  {
    var slot := SlotOf(entries, raw);
    if slot >= 0 then Success(entries[slot := entries[slot].(cfg := Some(cfg))])
    else if |entries| >= MAX_USER_PRESETS then Failure(LimitReached)
    else
      SanitizeIsClean(raw);
      Success(entries + [Entry(Sanitize(raw), Some(cfg))])
  }

  function Checked(cfg: PersistedConfig): Result<PersistedConfig, PresetError> {
    if cfg.magic != CONFIG_MAGIC then Failure(InvalidMagic)
    else if cfg.version != CONFIG_VERSION then Failure(Obsolete)
    else Success(cfg)
  }

  function Loaded(entries: seq<Entry>, raw: string): Result<PersistedConfig, PresetError> {
    var slot := SlotOf(entries, raw);
    if slot < 0 then Failure(UnknownPreset)
    else match entries[slot].cfg
      case None => Failure(Corrupted)
      case Some(cfg) => Checked(cfg)
  }

  /** The entries among the first `n` that survive deleting `slot`: intact, and not the target. */
  function Kept(entries: seq<Entry>, slot: nat, n: nat): (r: seq<Entry>)
    requires n <= |entries|
    ensures |r| <= n && (slot < n ==> |r| < n)
    ensures forall i | 0 <= i < |r| :: r[i].cfg.Some?
  {
    if n == 0 then []
    else Kept(entries, slot, n - 1)
         + if n - 1 != slot && entries[n - 1].cfg.Some? then [entries[n - 1]] else []
  }

  function Removed(entries: seq<Entry>, raw: string): Result<seq<Entry>, PresetError> {
    var slot := SlotOf(entries, raw);
    if slot < 0 then Failure(UnknownPreset) else Success(Kept(entries, slot, |entries|))
  }

  /** When no blob is damaged, deletion removes its target and keeps all the others in order. */
  lemma {:induction false} KeptIsRemoval(entries: seq<Entry>, slot: nat, n: nat)
    requires n <= |entries| && forall i | 0 <= i < |entries| :: entries[i].cfg.Some?
    ensures Kept(entries, slot, n) == if slot < n then entries[..slot] + entries[slot + 1..n] else entries[..n]
    decreases n
  {
    if n > 0 {
      KeptIsRemoval(entries, slot, n - 1);
      if slot < n - 1 {
        assert entries[slot + 1..n] == entries[slot + 1..n - 1] + [entries[n - 1]];
      } else if slot == n - 1 {
        assert entries[slot + 1..n] == [];
      } else {
        assert entries[..n] == entries[..n - 1] + [entries[n - 1]];
      }
    }
  }

  // ----- Reads that fail while compacting -----

  /** The number of the NVS call that reads slot `i`, when compaction starts with call `first`: a slot read is also written. */
  function ReadCall(entries: seq<Entry>, slot: nat, fails: nat -> bool, first: nat, i: nat): (r: nat)
    requires i <= |entries|
    ensures r >= first
  {
    if i == 0 then first
    else
      var before := ReadCall(entries, slot, fails, first, i - 1);
      if i - 1 == slot then before
      else if entries[i - 1].cfg.Some? && !fails(before) then before + 2
      else before + 1
  }

  /** The entries as compaction sees them: one whose read fails looks damaged. */
  function AsRead(entries: seq<Entry>, slot: nat, fails: nat -> bool, first: nat): (r: seq<Entry>)
    ensures |r| == |entries|
    ensures forall i | 0 <= i < |r| :: r[i] == if ReadFails(entries, slot, fails, first, i) then entries[i].(cfg := None) else entries[i]
  {
    seq(|entries|, i requires 0 <= i < |entries| =>
      if ReadFails(entries, slot, fails, first, i) then entries[i].(cfg := None) else entries[i])
  }

  predicate ReadFails(entries: seq<Entry>, slot: nat, fails: nat -> bool, first: nat, i: nat)
    requires i < |entries|
  {
    i != slot && fails(ReadCall(entries, slot, fails, first, i))
  }

  /** An intact preset other than the target whose read fails. */
  predicate IsLost(entries: seq<Entry>, slot: nat, fails: nat -> bool, first: nat, i: nat)
    requires i < |entries|
  {
    entries[i].cfg.Some? && ReadFails(entries, slot, fails, first, i)
  }

  /** Slot `i` is intact, not the target, and looks damaged. */
  predicate Missed(entries: seq<Entry>, seen: seq<Entry>, slot: nat, i: nat)
    requires i < |entries| == |seen|
  {
    i != slot && entries[i].cfg.Some? && seen[i].cfg.None?
  }

  lemma {:induction false} KeptOfSeen(entries: seq<Entry>, seen: seq<Entry>, slot: nat, n: nat)
    requires n <= |entries| == |seen|
    requires forall i | 0 <= i < |entries| :: seen[i] == entries[i] || seen[i].cfg.None?
    ensures if forall i | 0 <= i < n :: !Missed(entries, seen, slot, i)
            then Kept(seen, slot, n) == Kept(entries, slot, n)
            else |Kept(seen, slot, n)| < |Kept(entries, slot, n)|
    decreases n
  {
    hide Kept;
    KeptStep(entries, slot, 0);
    KeptStep(seen, slot, 0);
    if n > 0 {
      var last := n - 1;
      KeptOfSeen(entries, seen, slot, last);
      KeptStep(entries, slot, last);
      KeptStep(seen, slot, last);
      assert last + 1 == n && (seen[last] == entries[last] || seen[last].cfg.None?);
      if !Missed(entries, seen, slot, last) {
        assert last != slot && entries[last].cfg.Some? ==> seen[last] == entries[last];
      }
    }
  }

  /** A delete keeps every intact preset but its target if and only if the read of none of them fails. */
  lemma DeleteKeepsOthersIff(entries: seq<Entry>, slot: nat, fails: nat -> bool, first: nat)
    ensures Kept(AsRead(entries, slot, fails, first), slot, |entries|) == Kept(entries, slot, |entries|) <==>
            forall i | 0 <= i < |entries| :: !IsLost(entries, slot, fails, first, i)
  {
    hide ReadCall, Kept, AsRead;
    var seen := AsRead(entries, slot, fails, first);
    forall i | 0 <= i < |entries|
      ensures Missed(entries, seen, slot, i) <==> IsLost(entries, slot, fails, first, i)
    {}
    KeptOfSeen(entries, seen, slot, |entries|);
    hide IsLost, Missed;
  }

  /** Deleting the first of two presets while the read of the second fails leaves none. */
  lemma DeleteCanLoseAPreset(cfg: PersistedConfig)
    ensures var entries := [Entry("a", Some(cfg)), Entry("b", Some(cfg))];
            && Kept(entries, 0, 2) == [entries[1]]
            && Kept(AsRead(entries, 0, call => call == 3, 3), 0, 2) == []
  {
    var entries := [Entry("a", Some(cfg)), Entry("b", Some(cfg))];
    var fails := call => call == 3;
    assert ReadCall(entries, 0, fails, 3, 0) == 3 && ReadCall(entries, 0, fails, 3, 1) == 3;
    assert ReadFails(entries, 0, fails, 3, 1);
    var seen := AsRead(entries, 0, fails, 3);
    assert seen[1].cfg.None?;
    assert Kept(seen, 0, 0) == [] && Kept(seen, 0, 1) == [];
    assert Kept(entries, 0, 0) == [] && Kept(entries, 0, 1) == [];
    assert Kept(entries, 0, 2) == [] + [entries[1]];
  }

  lemma ReadCallStep(entries: seq<Entry>, slot: nat, fails: nat -> bool, first: nat, i: nat)
    requires i < |entries|
    ensures var call, next := ReadCall(entries, slot, fails, first, i), ReadCall(entries, slot, fails, first, i + 1);
            && ReadCall(entries, slot, fails, first, 0) == first
            && next == (if i == slot then call else if entries[i].cfg.Some? && !fails(call) then call + 2 else call + 1)
            && (i != slot ==> AsRead(entries, slot, fails, first)[i] == if fails(call) then entries[i].(cfg := None) else entries[i])
  {}

  lemma {:induction false} ReadCallsGrow(entries: seq<Entry>, slot: nat, fails: nat -> bool, first: nat, i: nat, n: nat)
    requires i < n <= |entries| && i != slot
    ensures ReadCall(entries, slot, fails, first, i) < ReadCall(entries, slot, fails, first, n)
    decreases n
  {
    if i < n - 1 {
      ReadCallsGrow(entries, slot, fails, first, i, n - 1);
    }
  }

  /** When no call of the compaction fails it sees the entries as they are. */
  lemma AllReadsWork(entries: seq<Entry>, slot: nat, fails: nat -> bool, first: nat)
    requires forall k | first <= k < ReadCall(entries, slot, fails, first, |entries|) :: !fails(k)
    ensures AsRead(entries, slot, fails, first) == entries
  {
    forall i | 0 <= i < |entries|
      ensures !ReadFails(entries, slot, fails, first, i)
    {
      if i != slot {
        ReadCallsGrow(entries, slot, fails, first, i, |entries|);
      }
    }
    hide ReadCall;
  }

  // ----- The effect of one write -----

  lemma ConfigWrite(nvs: map<string, Blob>, slot: nat, cfg: PersistedConfig)
    requires slot < MAX_USER_PRESETS
    ensures var after := nvs[PresetKey(slot) := ConfigBlob(cfg)];
      && DirectoryOf(after) == DirectoryOf(nvs)
      && (forall j | 0 <= j < MAX_USER_PRESETS :: ConfigAt(after, j) == if j == slot then Some(cfg) else ConfigAt(nvs, j))
      && (forall j | 0 <= j < MAX_USER_PRESETS && j != slot :: PresetKey(j) in after <==> PresetKey(j) in nvs)
  {
    KeysAreDistinct();
    hide PresetKey;
    forall j | 0 <= j < MAX_USER_PRESETS && j != slot ensures PresetKey(j) != PresetKey(slot) {
      if j < slot {
        assert PresetKey(j) != PresetKey(slot);
      } else {
        assert PresetKey(slot) != PresetKey(j);
      }
    }
  }

  lemma DirectoryWrite(nvs: map<string, Blob>, dir: Directory)
    requires dir.magic == CONFIG_MAGIC && dir.version == DIRECTORY_VERSION && dir.count <= MAX_USER_PRESETS
    ensures var after := nvs[DIRECTORY_KEY := DirectoryBlob(dir)];
      && DirectoryOf(after) == dir
      && (forall j | 0 <= j < MAX_USER_PRESETS :: ConfigAt(after, j) == ConfigAt(nvs, j))
      && (forall j | 0 <= j < MAX_USER_PRESETS :: PresetKey(j) in after <==> PresetKey(j) in nvs)
  {
    KeysAreDistinct();
  }

  lemma WriteKeepsElsewhere(before: map<string, Blob>, nvs: map<string, Blob>, key: string, blob: Blob)
    requires SameElsewhere(before, nvs) && IsPresetKey(key)
    ensures SameElsewhere(before, nvs[key := blob]) && SameElsewhere(before, nvs - {key})
  {
    hide IsPresetKey;
  }

  lemma ElsewhereIsReflexive(nvs: map<string, Blob>)
    ensures SameElsewhere(nvs, nvs)
  {}

  lemma DirectoryNames(nvs: map<string, Blob>)
    ensures DirectoryOf(nvs).names[..DirectoryOf(nvs).count] == NamesOf(Entries(nvs))
    ensures |Entries(nvs)| == DirectoryOf(nvs).count
    ensures Entries(nvs) == Listing(nvs, DirectoryOf(nvs))
  {}

  /** The first slots hold exactly `kept`. */
  predicate Copied(nvs: map<string, Blob>, names: NameTable, kept: seq<Entry>) {
    |kept| <= MAX_USER_PRESETS && forall j | 0 <= j < |kept| :: Entry(names[j], ConfigAt(nvs, j)) == kept[j]
  }

  /** The blobs from slot `i` on are still the original ones. */
  predicate Uncopied(nvs: map<string, Blob>, entries: seq<Entry>, i: nat) {
    |entries| <= MAX_USER_PRESETS && forall j | i <= j < |entries| :: ConfigAt(nvs, j) == entries[j].cfg
  }

  lemma CopyOne(nvs: map<string, Blob>, names: NameTable, kept: seq<Entry>, entries: seq<Entry>, i: nat)
    requires Copied(nvs, names, kept) && Uncopied(nvs, entries, i)
    requires |kept| <= i < |entries| && entries[i].cfg.Some?
    ensures var after := nvs[PresetKey(|kept|) := ConfigBlob(entries[i].cfg.value)];
            && Copied(after, names[|kept| := entries[i].name], kept + [entries[i]])
            && Uncopied(after, entries, i + 1)
  {
    ConfigWrite(nvs, |kept|, entries[i].cfg.value);
    hide PresetKey, ConfigAt, DirectoryOf;
  }

  lemma CopiedFrame(nvs: map<string, Blob>, after: map<string, Blob>, names: NameTable, kept: seq<Entry>)
    requires Copied(nvs, names, kept)
    requires forall j | 0 <= j < |kept| :: j < MAX_USER_PRESETS && ConfigAt(after, j) == ConfigAt(nvs, j)
    ensures Copied(after, names, kept)
  {
    hide ConfigAt;
  }

  lemma CopyStart(nvs: map<string, Blob>, entries: seq<Entry>, slot: nat)
    requires |entries| <= MAX_USER_PRESETS && forall i | 0 <= i < |entries| :: entries[i].cfg == ConfigAt(nvs, i)
    ensures Kept(entries, slot, 0) == [] && Copied(nvs, NO_NAMES, []) && Uncopied(nvs, entries, 0)
  {}

  /** Skipping slot `i` leaves the later ones uncopied. */
  lemma UncopiedAt(nvs: map<string, Blob>, entries: seq<Entry>, i: nat)
    requires Uncopied(nvs, entries, i) && i < |entries|
    ensures ConfigAt(nvs, i) == entries[i].cfg && Uncopied(nvs, entries, i + 1)
  {}

  lemma KeptStep(entries: seq<Entry>, slot: nat, i: nat)
    requires i <= |entries|
    ensures Kept(entries, slot, 0) == []
    ensures i < |entries| ==>
              Kept(entries, slot, i + 1) ==
                if i != slot && entries[i].cfg.Some? then Kept(entries, slot, i) + [entries[i]] else Kept(entries, slot, i)
  {}

  lemma PresetKeysAreOurs()
    ensures IsPresetKey(DIRECTORY_KEY) && forall j | 0 <= j < MAX_USER_PRESETS :: IsPresetKey(PresetKey(j))
  {}

  /** Overwriting the blob of a listed slot changes that entry only, before and after the directory is rewritten. */
  lemma UpdateEffect(nvs: map<string, Blob>, slot: nat, cfg: PersistedConfig)
    requires slot < DirectoryOf(nvs).count
    ensures var mid := nvs[PresetKey(slot) := ConfigBlob(cfg)];
            var after := mid[DIRECTORY_KEY := DirectoryBlob(DirectoryOf(nvs))];
            var want := Entries(nvs)[slot := Entries(nvs)[slot].(cfg := Some(cfg))];
            Entries(mid) == want && Entries(after) == want && (Tidy(nvs) ==> Tidy(after))
  {
    hide PresetKey, ConfigAt;
    var mid := nvs[PresetKey(slot) := ConfigBlob(cfg)];
    ConfigWrite(nvs, slot, cfg);
    DirectoryWrite(mid, DirectoryOf(nvs));
  }

  /** Filling the first unlisted slot shows only once the directory is rewritten. */
  lemma AppendEffect(nvs: map<string, Blob>, name: StoredName, cfg: PersistedConfig)
    requires DirectoryOf(nvs).count < MAX_USER_PRESETS
    ensures var dir := DirectoryOf(nvs);
            var mid := nvs[PresetKey(dir.count) := ConfigBlob(cfg)];
            var longer := dir.(count := dir.count + 1, names := dir.names[dir.count := name]);
            var after := mid[DIRECTORY_KEY := DirectoryBlob(longer)];
            && Entries(mid) == Entries(nvs)
            && Entries(after) == Entries(nvs) + [Entry(name, Some(cfg))]
            && (Tidy(nvs) ==> Tidy(after))
  {
    hide PresetKey, ConfigAt;
    var dir := DirectoryOf(nvs);
    var mid := nvs[PresetKey(dir.count) := ConfigBlob(cfg)];
    ConfigWrite(nvs, dir.count, cfg);
    DirectoryWrite(mid, dir.(count := dir.count + 1, names := dir.names[dir.count := name]));
  }

  /** The list with its first configuration replaced, whatever its name. */
  function FirstOverwritten(entries: seq<Entry>, cfg: PersistedConfig): (r: seq<Entry>)
    ensures |r| == |entries|
  {
    if entries == [] then [] else entries[0 := entries[0].(cfg := Some(cfg))]
  }

  /** A save that took the directory for empty goes to slot 0, and hides every other preset once the directory is written. */
  lemma FreshEffect(nvs: map<string, Blob>, name: StoredName, cfg: PersistedConfig)
    ensures var mid := nvs[PresetKey(0) := ConfigBlob(cfg)];
            var after := mid[DIRECTORY_KEY := DirectoryBlob(FRESH_DIRECTORY.(count := 1, names := FRESH_DIRECTORY.names[0 := name]))];
            && Entries(mid) == FirstOverwritten(Entries(nvs), cfg)
            && Entries(after) == [Entry(name, Some(cfg))]
  {
    hide PresetKey, ConfigAt;
    var mid := nvs[PresetKey(0) := ConfigBlob(cfg)];
    ConfigWrite(nvs, 0, cfg);
    DirectoryWrite(mid, FRESH_DIRECTORY.(count := 1, names := FRESH_DIRECTORY.names[0 := name]));
  }

  /** Rewriting the directory over compacted blobs lists exactly what was kept. */
  lemma DeleteEffect(nvs: map<string, Blob>, names: NameTable, kept: seq<Entry>)
    requires Copied(nvs, names, kept)
    ensures var after := nvs[DIRECTORY_KEY := DirectoryBlob(Directory(CONFIG_MAGIC, DIRECTORY_VERSION, |kept|, names))];
            && Entries(after) == kept
            && ((forall j | |kept| <= j < MAX_USER_PRESETS :: PresetKey(j) !in nvs) ==> Tidy(after))
  {
    hide PresetKey, ConfigAt;
    DirectoryWrite(nvs, Directory(CONFIG_MAGIC, DIRECTORY_VERSION, |kept|, names));
  }

  // ----- The store -----

  class Store {
    var nvs: map<string, Blob>
    var ops: nat
    const fails: nat -> bool

    constructor (fails: nat -> bool)
      ensures nvs == map[] && ops == 0 && this.fails == fails
    {
      nvs := map[];
      ops := 0;
      this.fails := fails;
    }

    /** Every NVS call from number `from` up to `to` succeeds. */
    ghost predicate NoFaults(from: nat, to: nat) {
      forall i | from <= i < to :: !fails(i)
    }

    method Attempt() returns (ok: bool)
      modifies this`ops
      ensures ops == old(ops) + 1 && ok == !fails(old(ops))
    {
      ok := !fails(ops);
      ops := ops + 1;
    }

    method SetBlob(key: string, blob: Blob) returns (ok: bool)
      modifies this
      ensures ops == old(ops) + 1 && ok == !fails(old(ops))
      ensures nvs == if ok then old(nvs)[key := blob] else old(nvs)
    {
      ok := Attempt();
      if ok {
        nvs := nvs[key := blob];
      }
    }

    method EraseKey(key: string)
      modifies this
      ensures ops == old(ops) + 1
      ensures nvs == if fails(old(ops)) then old(nvs) else old(nvs) - {key}
    {
      var ok := Attempt();
      if ok {
        nvs := nvs - {key};
      }
    }

    /** The store cannot be opened for reading with call `from`, or the directory not be read with the next one. */
    predicate Unread(from: nat) {
      fails(from) || fails(from + 1)
    }

    /** The number of the first call after reading the directory, which begins with call `from`. */
    function AfterDirectory(from: nat): nat {
      if fails(from) then from + 1 else from + 2
    }

    /** An unreadable or foreign directory reads as an empty one. */
    method LoadPresetDirectory() returns (dir: Directory)
      modifies this`ops
      ensures ops == old(ops) + if fails(old(ops)) then 1 else 2
      ensures dir == if Unread(old(ops)) then FRESH_DIRECTORY else DirectoryOf(nvs)
    {
      var ok := Attempt();
      if !ok {
        return FRESH_DIRECTORY;
      }
      ok := Attempt();
      if !ok {
        return FRESH_DIRECTORY;
      }
      if DIRECTORY_KEY !in nvs || !nvs[DIRECTORY_KEY].DirectoryBlob? {
        return FRESH_DIRECTORY;
      }
      dir := nvs[DIRECTORY_KEY].dir;
      if dir.magic != CONFIG_MAGIC || dir.version != DIRECTORY_VERSION {
        return FRESH_DIRECTORY;
      }
      if dir.count > MAX_USER_PRESETS {
        dir := dir.(count := MAX_USER_PRESETS);
      }
    }

    method FindPresetSlotByName(dir: Directory, name: string) returns (slot: int)
      requires dir.count <= MAX_USER_PRESETS
      ensures slot == FindSlot(dir.names[..dir.count], name)
    {
      var i := 0;
      while i < dir.count
        invariant 0 <= i <= dir.count
        invariant forall j | 0 <= j < i :: !SameName(dir.names[j], name)
      {
        if SameName(name, dir.names[i]) {
          return i;
        }
        i := i + 1;
      }
      return -1;
    }

    /**
     saveUserPresetBlob. Whatever write fails, the list is either untouched or fully
     updated, as long as the directory itself could be read. If it could not, it is taken
     for empty: a save that then succeeds leaves its own preset as the only one, and one
     that fails may already have overwritten the first preset or dropped all others.
     */
    method SaveUserPresetBlob(rawName: string, cfg: PersistedConfig) returns (r: Option<PresetError>)
      modifies this
      ensures ops > old(ops) && SameElsewhere(old(nvs), nvs)
      ensures NoFaults(old(ops), ops) ==> !Unread(old(ops))
      ensures !Unread(old(ops)) ==>
                match Saved(old(Entries(nvs)), rawName, cfg)
                case Failure(e) => r == Some(e) && nvs == old(nvs)
                case Success(after) =>
                  && (r == None ==> Entries(nvs) == after)
                  && (r != None ==> Entries(nvs) == after || Entries(nvs) == old(Entries(nvs)))
                  && (NoFaults(old(ops), ops) ==> r == None && (old(Tidy(nvs)) ==> Tidy(nvs)))
      ensures r == None ==> ops == AfterDirectory(old(ops)) + 4 && NoFaults(AfterDirectory(old(ops)), ops)
      ensures r == Some(NvsUnavailable) <==> ops == AfterDirectory(old(ops)) + 1 && fails(AfterDirectory(old(ops)))
      ensures r == Some(LimitReached) <==> ops == AfterDirectory(old(ops))
      ensures r.Some? ==> r.value in {LimitReached, NvsUnavailable, WriteFailed}
      ensures Unread(old(ops)) ==>
                var alone := [Entry(Sanitize(rawName), Some(cfg))];
                && (r == None ==> Entries(nvs) == alone)
                && (Entries(nvs) == alone || Entries(nvs) == old(Entries(nvs)) || Entries(nvs) == FirstOverwritten(old(Entries(nvs)), cfg))
    {
      hide PresetKey, IsPresetKey, SameElsewhere, ConfigAt, Tidy, Sanitize, FindSlot, DirectoryOf, Entries, FirstOverwritten;
      ghost var n0 := nvs;
      PresetKeysAreOurs();
      ElsewhereIsReflexive(n0);
      var name := SanitizePresetName(rawName);
      SanitizeIsClean(rawName);
      var dir := LoadPresetDirectory();
      DirectoryNames(n0);
      var slot := FindPresetSlotByName(dir, name);
      if slot < 0 {
        if dir.count >= MAX_USER_PRESETS {
          return Some(LimitReached);
        }
        slot := dir.count;
        if !Unread(old(ops)) {
          AppendEffect(n0, name, cfg);
        } else {
          FreshEffect(n0, name, cfg);
        }
        dir := dir.(count := dir.count + 1, names := dir.names[slot := name]);
      } else if !Unread(old(ops)) {
        UpdateEffect(n0, slot, cfg);
      }
      WriteKeepsElsewhere(n0, n0, PresetKey(slot), ConfigBlob(cfg));
      WriteKeepsElsewhere(n0, n0[PresetKey(slot) := ConfigBlob(cfg)], DIRECTORY_KEY, DirectoryBlob(dir));
      r := WritePreset(slot, cfg, dir);
    }

    /** The writing part of saveUserPresetBlob: opens the store, writes the blob, then the directory, and commits. */
    method WritePreset(slot: nat, cfg: PersistedConfig, dir: Directory) returns (r: Option<PresetError>)
      requires slot < MAX_USER_PRESETS
      modifies this
      ensures var first := old(ops);
              var blob := old(nvs)[PresetKey(slot) := ConfigBlob(cfg)];
              if fails(first) then r == Some(NvsUnavailable) && ops == first + 1 && nvs == old(nvs)
              else if fails(first + 1) then r == Some(WriteFailed) && ops == first + 2 && nvs == old(nvs)
              else if fails(first + 2) then r == Some(WriteFailed) && ops == first + 3 && nvs == blob
              else
                && ops == first + 4 && nvs == blob[DIRECTORY_KEY := DirectoryBlob(dir)]
                && r == if fails(first + 3) then Some(WriteFailed) else None
    {
      hide PresetKey;
      var ok := Attempt();
      if !ok {
        return Some(NvsUnavailable);
      }
      ok := SetBlob(PresetKey(slot), ConfigBlob(cfg));
      if ok {
        ok := SetBlob(DIRECTORY_KEY, DirectoryBlob(dir));
      }
      if ok {
        ok := Attempt();
      }
      r := if ok then None else Some(WriteFailed);
    }

    method LoadUserPreset(rawName: string) returns (r: Result<PersistedConfig, PresetError>)
      modifies this`ops
      ensures ops > old(ops)
      ensures NoFaults(old(ops), ops) ==> r == Loaded(Entries(nvs), rawName)
      ensures r.Success? ==> ops == old(ops) + 4 && NoFaults(old(ops), ops) && r == Loaded(Entries(nvs), rawName)
      ensures !Unread(old(ops)) && SlotOf(Entries(nvs), rawName) >= 0 ==>
                && (fails(old(ops) + 2) ==> r == Failure(NvsUnavailable))
                && (!fails(old(ops) + 2) && fails(old(ops) + 3) ==> r == Failure(Corrupted))
      ensures Unread(old(ops)) ==> r == Failure(UnknownPreset)
    {
      hide Sanitize, DirectoryOf, FindSlot;
      DirectoryNames(nvs);
      var name := SanitizePresetName(rawName);
      var dir := LoadPresetDirectory();
      var slot := FindPresetSlotByName(dir, name);
      if slot < 0 {
        return Failure(UnknownPreset);
      }
      var ok := Attempt();
      if !ok {
        return Failure(NvsUnavailable);
      }
      ok := Attempt();
      if !ok {
        return Failure(Corrupted);
      }
      var key := PresetKey(slot);
      if key !in nvs || !nvs[key].ConfigBlob? {
        return Failure(Corrupted);
      }
      var cfg := nvs[key].cfg;
      if cfg.magic != CONFIG_MAGIC {
        return Failure(InvalidMagic);
      }
      if cfg.version != CONFIG_VERSION {
        return Failure(Obsolete);
      }
      return Success(cfg);
    }

    /**
     deleteUserPreset: compacts the surviving blobs downwards in place, then rewrites the
     directory. A preset whose blob cannot be read is dropped like a damaged one.
     */
    method DeleteUserPreset(rawName: string) returns (r: Option<PresetError>)
      modifies this
      ensures ops > old(ops) && SameElsewhere(old(nvs), nvs)
      ensures NoFaults(old(ops), ops) ==> !Unread(old(ops))
      ensures !Unread(old(ops)) ==>
                match Removed(old(Entries(nvs)), rawName)
                case Failure(e) => r == Some(e) && nvs == old(nvs)
                case Success(after) =>
                  && (r == None ==>
                        var entries, slot := old(Entries(nvs)), SlotOf(old(Entries(nvs)), rawName);
                        Entries(nvs) == Kept(AsRead(entries, slot, fails, old(ops) + 3), slot, |entries|))
                  && (NoFaults(old(ops), ops) ==> r == None && Entries(nvs) == after && (old(Tidy(nvs)) ==> Tidy(nvs)))
      ensures Unread(old(ops)) ==> r == Some(UnknownPreset) && nvs == old(nvs)
      ensures r == None ==> ops >= old(ops) + 5 && !fails(ops - 1) && !fails(ops - 2) && !fails(old(ops) + 2)
      ensures r == Some(NvsUnavailable) <==> ops == AfterDirectory(old(ops)) + 1 && fails(AfterDirectory(old(ops)))
      ensures r.Some? ==> r.value in {UnknownPreset, NvsUnavailable, WriteFailed}
    {
      hide PresetKey, IsPresetKey, SameElsewhere, Tidy, Sanitize, FindSlot, DirectoryOf, Entries, Kept, AsRead;
      ElsewhereIsReflexive(nvs);
      var name := SanitizePresetName(rawName);
      var dir := LoadPresetDirectory();
      DirectoryNames(nvs);
      var slot := FindPresetSlotByName(dir, name);
      if slot < 0 {
        return Some(UnknownPreset);
      }
      r := DeleteSlot(dir, slot);
    }

    /** The writing part of deleteUserPreset. */
    method DeleteSlot(dir: Directory, slot: nat) returns (r: Option<PresetError>)
      requires dir.count <= MAX_USER_PRESETS && slot < dir.count
      requires dir == DirectoryOf(nvs)
      modifies this
      ensures ops > old(ops) && SameElsewhere(old(nvs), nvs)
      ensures r == None ==>
                && Entries(nvs) == Kept(AsRead(old(Listing(nvs, dir)), slot, fails, old(ops) + 1), slot, dir.count)
                && ops >= old(ops) + 3 && !fails(ops - 1) && !fails(ops - 2) && !fails(old(ops))
      ensures NoFaults(old(ops), ops) ==>
                && r == None && Entries(nvs) == Kept(old(Listing(nvs, dir)), slot, dir.count)
                && (old(Tidy(nvs)) ==> Tidy(nvs))
      ensures r == Some(NvsUnavailable) <==> ops == old(ops) + 1 && fails(old(ops))
      ensures r.Some? ==> r.value in {NvsUnavailable, WriteFailed}
    {
      hide PresetKey, IsPresetKey, SameElsewhere, ConfigAt, DirectoryOf, Entries, Kept, AsRead, Copied;
      ghost var n0 := nvs;
      PresetKeysAreOurs();
      ElsewhereIsReflexive(n0);
      var ok := Attempt();
      if !ok {
        return Some(NvsUnavailable);
      }
      ghost var kept := Kept(AsRead(Listing(nvs, dir), slot, fails, ops), slot, dir.count);
      var newNames, newCount;
      newNames, newCount, ok := CompactBlobs(dir, slot);
      if !ok {
        return Some(WriteFailed);
      }
      ghost var compacted := nvs;
      EraseTail(newCount, dir.count, n0);
      CopiedFrame(compacted, nvs, newNames, kept);
      DeleteEffect(nvs, newNames, kept);
      var newDir := Directory(CONFIG_MAGIC, DIRECTORY_VERSION, newCount, newNames);
      WriteKeepsElsewhere(n0, nvs, DIRECTORY_KEY, DirectoryBlob(newDir));
      ok := SetBlob(DIRECTORY_KEY, DirectoryBlob(newDir));
      if ok {
        ok := Attempt();
      }
      r := if ok then None else Some(WriteFailed);
    }

    /** The copying loop: slot `dst` is always at or below the slot being read. */
    method CompactBlobs(dir: Directory, slot: nat) returns (newNames: NameTable, newCount: nat, ok: bool)
      requires dir.count <= MAX_USER_PRESETS && slot < dir.count
      modifies this
      ensures ops >= old(ops) && newCount < dir.count
      ensures NoFaults(old(ops), ops) ==>
                ok && AsRead(old(Listing(nvs, dir)), slot, fails, old(ops)) == old(Listing(nvs, dir))
      ensures SameElsewhere(old(nvs), nvs)
      ensures forall j | newCount <= j < MAX_USER_PRESETS :: PresetKey(j) in nvs ==> PresetKey(j) in old(nvs)
      ensures ok ==> var kept := Kept(AsRead(old(Listing(nvs, dir)), slot, fails, old(ops)), slot, dir.count);
                newCount == |kept| && Copied(nvs, newNames, kept)
    {
      hide PresetKey, IsPresetKey, SameElsewhere, ConfigAt, DirectoryOf, Kept, AsRead, ReadCall, Copied, Uncopied;
      PresetKeysAreOurs();
      ElsewhereIsReflexive(nvs);
      ghost var entries := Listing(nvs, dir);
      ReadCallStep(entries, slot, fails, ops, 0);
      ghost var seen := AsRead(entries, slot, fails, ops);
      CopyStart(nvs, entries, slot);
      KeptStep(seen, slot, 0);
      newNames, newCount, ok := NO_NAMES, 0, true;
      var i := 0;
      while i < dir.count
        invariant 0 <= i <= dir.count && ok && ops == ReadCall(entries, slot, fails, old(ops), i)
        invariant newCount == |Kept(seen, slot, i)|
        invariant Copied(nvs, newNames, Kept(seen, slot, i)) && Uncopied(nvs, entries, i)
        invariant forall j | newCount <= j < MAX_USER_PRESETS :: PresetKey(j) in nvs ==> PresetKey(j) in old(nvs)
        invariant SameElsewhere(old(nvs), nvs)
      {
        KeptStep(seen, slot, i);
        ReadCallStep(entries, slot, fails, old(ops), i);
        UncopiedAt(nvs, entries, i);
        if i != slot {
          var dst := newCount;
          if entries[i].cfg.Some? {
            CopyOne(nvs, newNames, Kept(seen, slot, i), entries, i);
            ConfigWrite(nvs, dst, entries[i].cfg.value);
            WriteKeepsElsewhere(old(nvs), nvs, PresetKey(dst), ConfigBlob(entries[i].cfg.value));
          }
          var copied;
          copied, ok := CopyBlob(i, dst);
          if !ok {
            assert fails(ops - 1);
            return;
          }
          if copied {
            newNames := newNames[dst := dir.names[i]];
            newCount := newCount + 1;
          }
        }
        i := i + 1;
      }
      if NoFaults(old(ops), ops) {
        AllReadsWork(entries, slot, fails, old(ops));
      }
    }

    /** Reads one slot and, if that works, writes it to another; only the write can end the compaction. */
    method CopyBlob(src: nat, dst: nat) returns (copied: bool, ok: bool)
      requires src < MAX_USER_PRESETS && dst < MAX_USER_PRESETS
      modifies this
      ensures var cfg, read := ConfigAt(old(nvs), src), !fails(old(ops));
              if read && cfg.Some? then
                && ops == old(ops) + 2 && copied == ok == !fails(old(ops) + 1)
                && nvs == if ok then old(nvs)[PresetKey(dst) := ConfigBlob(cfg.value)] else old(nvs)
              else !copied && ok && ops == old(ops) + 1 && nvs == old(nvs)
    {
      hide PresetKey;
      var srcKey := PresetKey(src);
      var read := Attempt();
      if !read || srcKey !in nvs || !nvs[srcKey].ConfigBlob? {
        return false, true;
      }
      ok := SetBlob(PresetKey(dst), nvs[srcKey]);
      copied := ok;
    }

    /** The leftover slots are erased; a failed erase is ignored. */
    method EraseTail(from: nat, to: nat, ghost n0: map<string, Blob>)
      requires from <= to <= MAX_USER_PRESETS && SameElsewhere(n0, nvs)
      modifies this
      ensures ops >= old(ops)
      ensures SameElsewhere(n0, nvs)
      ensures forall j | 0 <= j < from :: ConfigAt(nvs, j) == ConfigAt(old(nvs), j)
      ensures nvs.Keys <= old(nvs).Keys
      ensures NoFaults(old(ops), ops) ==> forall i | from <= i < to :: PresetKey(i) !in nvs
    {
      KeysAreDistinct();
      PresetKeysAreOurs();
      hide PresetKey, IsPresetKey, SameElsewhere;
      var i := from;
      while i < to
        invariant from <= i <= to && ops >= old(ops)
        invariant SameElsewhere(n0, nvs)
        invariant forall j | 0 <= j < from :: ConfigAt(nvs, j) == ConfigAt(old(nvs), j)
        invariant nvs.Keys <= old(nvs).Keys
        invariant NoFaults(old(ops), ops) ==> forall j | from <= j < i :: PresetKey(j) !in nvs
      {
        WriteKeepsElsewhere(n0, nvs, PresetKey(i), OtherBlob);
        EraseKey(PresetKey(i));
        i := i + 1;
      }
    }

    // ----- preset_service.cpp -----

    method PresetNameExists(rawName: string) returns (r: bool)
      modifies this`ops
      ensures ops > old(ops)
      ensures NoFaults(old(ops), ops) ==> !Unread(old(ops))
      ensures !Unread(old(ops)) ==> r == Taken(NamesOf(Entries(nvs)), rawName)
    {
      hide Sanitize, DirectoryOf, Entries, Fold;
      DirectoryNames(nvs);
      var dir := LoadPresetDirectory();
      var target := SanitizePresetName(rawName);
      ghost var names: seq<string> := dir.names[..dir.count];
      var i := 0;
      while i < dir.count
        invariant 0 <= i <= dir.count
        invariant forall j | 0 <= j < i :: !SameName(dir.names[j], target)
      {
        if SameName(target, dir.names[i]) {
          assert names[i] == dir.names[i];
          return true;
        }
        i := i + 1;
      }
      assert FindSlot(names, target) < 0;
      return false;
    }

    method NextAvailableCustomModelName(baseName: string, millis: nat) returns (r: string)
      modifies this`ops
      ensures NoFaults(old(ops), ops) ==> r == NextName(NamesOf(Entries(nvs)), baseName, millis)
    {
      hide Sanitize, Taken, Entries;
      ghost var names := NamesOf(Entries(nvs));
      var base := SanitizePresetName(baseName);
      var found := PresetNameExists(base);
      if !found {
        return base;
      }
      var i := 2;
      while i <= 99
        invariant 2 <= i <= 100 && ops > old(ops)
        invariant NoFaults(old(ops), ops) ==> Taken(names, base)
        invariant NoFaults(old(ops), ops) ==> NextFrom(names, base, millis, i) == NextFrom(names, base, millis, 2)
      {
        var candidate := base + "_" + Decimal(i);
        found := PresetNameExists(candidate);
        if !found {
          return candidate;
        }
        i := i + 1;
      }
      return base + "_" + Decimal(millis % 1000);
    }
  }
}
