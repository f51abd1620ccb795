/** state/fsstore/fsstore.go: a key-value store over files, two per key, with failures and crashes
    between and inside its file operations. */
module FileStore {
  import opened Wrappers
  import opened Text

  /** The names in the store's directory and their contents. */
  type Files = map<string, string>

  /** How a file operation ends: done, or stopped by an error or a crash. A stopped write may have
      truncated the file and written some bytes of the data. */
  datatype Outcome = Works | Stops(crash: bool, torn: Option<nat>)

  /** The outcomes of Put's four operations: make the directory, write, rename, write the sidecar. */
  datatype PutPlan = PutPlan(mkdir: Outcome, write: Outcome, rename: Outcome, side: Outcome)

  datatype DeletePlan = DeletePlan(value: Outcome, side: Outcome)

  /** What reading the directory gives. */
  datatype Listing = NoDirectory | Unlistable | Names(entries: seq<string>)

  datatype Status = Done | Failed | Crashed

  /** The digest of a key in hexadecimal: no dots, and no two keys alike. */
  ghost predicate Ideal(hash: string -> string) {
    && (forall k :: '.' !in hash(k))
    && (forall j, k :: hash(j) == hash(k) ==> j == k)
  }

  function ValueFile(hash: string -> string, key: string): string { hash(key) + ".bin" }

  function KeyFile(hash: string -> string, key: string): string { hash(key) + ".key" }

  function TempFile(hash: string -> string, key: string): string { ValueFile(hash, key) + ".tmp" }

  function Lookup(files: Files, hash: string -> string, key: string): Option<string> {
    if ValueFile(hash, key) in files then Some(files[ValueFile(hash, key)]) else None
  }

  /* ---------- File operations ---------- */

  function Written(files: Files, name: string, data: string, o: Outcome): Files {
    match o
    case Works => files[name := data]
    case Stops(_, None) => files
    case Stops(_, Some(n)) => files[name := if n < |data| then data[..n] else data]
  }

  function Renamed(files: Files, from: string, to: string): Files
    requires from in files
  {
    (files - {from})[to := files[from]]
  }

  function Removed(files: Files, name: string, o: Outcome): Files {
    if o.Works? then files - {name} else files
  }

  function StatusOf(o: Outcome): Status {
    if o.Works? then Done else if o.crash then Crashed else Failed
  }

  /* ---------- The store ---------- */

  class Store {
    const hash: string -> string
    var files: Files

    constructor (hash: string -> string, files: Files)
      ensures this.hash == hash && this.files == files
    {
      this.hash, this.files := hash, files;
    }

    /** An absent file is no error; any other failing read is. */
    method Get(key: string, readable: bool) returns (r: Result<Option<string>>)
      ensures r.Err? <==> !readable && Lookup(files, hash, key).Some?
      ensures r.Ok? ==> r.value == Lookup(files, hash, key)
    {
      var vpath := ValueFile(hash, key);
      if vpath !in files {
        return Ok(None);
      }
      if !readable {
        return Err;
      }
      r := Ok(Some(files[vpath]));
    }

    /** Whatever stops it, a Put leaves the old or the new value of its key, the new one after success,
        and the values of all other keys. */
    method Put(key: string, value: string, plan: PutPlan) returns (status: Status)
      modifies this`files
      ensures (files, status) == AfterPut(old(files), hash, key, value, plan)
      ensures Ideal(hash) ==>
                Replaces(old(files), files, hash, key, plan.mkdir.Works? && plan.write.Works? && plan.rename.Works?, Some(value))
      ensures status == Done <==> plan.mkdir.Works? && plan.write.Works? && plan.rename.Works? && plan.side.Works?
    {
      PutReplaces(files, hash, key, value, plan);
      if !plan.mkdir.Works? {
        return StatusOf(plan.mkdir);
      }
      var vpath, kpath := ValueFile(hash, key), KeyFile(hash, key);
      var tmp := vpath + ".tmp";
      files := Written(files, tmp, value, plan.write);
      if !plan.write.Works? {
        return StatusOf(plan.write);
      }
      if !plan.rename.Works? {
        return StatusOf(plan.rename);
      }
      files := Renamed(files, tmp, vpath);
      files := Written(files, kpath, key, plan.side);
      status := StatusOf(plan.side);
    }

    method Delete(key: string, plan: DeletePlan) returns (status: Status)
      modifies this`files
      ensures (files, status) == AfterDelete(old(files), hash, key, plan)
      ensures Ideal(hash) ==> Replaces(old(files), files, hash, key, plan.value.Works?, None)
      ensures status == Done <==> plan.value.Works? && plan.side.Works?
    {
      DeleteReplaces(files, hash, key, plan);
      var paths := [ValueFile(hash, key), KeyFile(hash, key)];
      var outcomes := [plan.value, plan.side];
      var i := 0;
      while i < 2
        invariant 0 <= i <= 2
        invariant i > 0 ==> plan.value.Works?
        invariant i > 1 ==> plan.side.Works?
        invariant files == if i == 0 then old(files)
                           else if i == 1 then Removed(old(files), paths[0], plan.value)
                           else Removed(Removed(old(files), paths[0], plan.value), paths[1], plan.side)
      {
        files := Removed(files, paths[i], outcomes[i]);
        if !outcomes[i].Works? {
          return StatusOf(outcomes[i]);
        }
        i := i + 1;
      }
      status := Done;
    }

    /** Keys, given the answer to the directory listing and which files can be read: an absent directory
        holds no keys, and unreadable sidecars are skipped. */
    method Keys(listing: Listing, readable: string -> bool, prefix: string) returns (r: Result<seq<string>>)
      requires listing.Names? ==> forall i | 0 <= i < |listing.entries| :: listing.entries[i] in files
      ensures match listing
              case NoDirectory => r == Ok([])
              case Unlistable => r == Err
              case Names(entries) => r == Ok(Listed(files, entries, readable, prefix))
    {
      match listing {
        case NoDirectory => return Ok([]);
        case Unlistable => return Err;
        case Names(entries) =>
          var keys: seq<string> := [];
          for i := 0 to |entries|
            invariant keys == Listed(files, entries[..i], readable, prefix)
          {
            assert entries[..i + 1][..i] == entries[..i];
            if !HasSuffix(entries[i], ".key") {
              continue;
            }
            if !readable(entries[i]) {
              continue;
            }
            var k := files[entries[i]];
            if prefix == "" || HasPrefix(k, prefix) {
              keys := keys + [k];
            }
          }
          assert entries[..|entries|] == entries;
          r := Ok(keys);
      }
    }
  }

  /** Put, as its four operations in order; the first that stops ends it. */
  function AfterPut(files: Files, hash: string -> string, key: string, value: string, plan: PutPlan): (Files, Status) {
    PutAt(files, ValueFile(hash, key), KeyFile(hash, key), TempFile(hash, key), key, value, plan)
  }

  function PutAt(files: Files, vpath: string, kpath: string, tmp: string,
                 key: string, value: string, plan: PutPlan): (Files, Status)
  {
    var written := Written(files, tmp, value, plan.write);
    if !plan.mkdir.Works? then (files, StatusOf(plan.mkdir))
    else if !plan.write.Works? then (written, StatusOf(plan.write))
    else if !plan.rename.Works? then (written, StatusOf(plan.rename))
    else (Written(Renamed(written, tmp, vpath), kpath, key, plan.side), StatusOf(plan.side))
  }

  function AfterDelete(files: Files, hash: string -> string, key: string, plan: DeletePlan): (Files, Status) {
    var first := Removed(files, ValueFile(hash, key), plan.value);
    if !plan.value.Works? then (first, StatusOf(plan.value))
    else (Removed(first, KeyFile(hash, key), plan.side), StatusOf(plan.side))
  }

  /** The contents of the readable sidecars among the entries that begin with the prefix. */
  function Listed(files: Files, entries: seq<string>, readable: string -> bool, prefix: string): seq<string>
    requires forall i | 0 <= i < |entries| :: entries[i] in files
  {
    if entries == [] then []
    else
      var e := entries[|entries| - 1];
      Listed(files, entries[..|entries| - 1], readable, prefix) +
      if HasSuffix(e, ".key") && readable(e) && HasPrefix(files[e], prefix) then [files[e]] else []
  }

  /* ---------- File names do not collide ---------- */

  lemma SuffixApart(h: string, g: string, a: string, b: string)
    requires '.' !in h && '.' !in g && h + ['.'] + a == g + ['.'] + b
    ensures h == g && a == b
  {
    SplitFirst(h, a, '.');
    SplitFirst(g, b, '.');
    var x, y := h + ['.'] + a, g + ['.'] + b;
    assert Split(x, '.')[0] == h && Split(y, '.')[0] == g;
    assert x[|h| + 1..] == a && y[|g| + 1..] == b;
  }

  /** The three file names of a key: its digest, a dot, and what kind of file it is. */
  lemma NameParts(hash: string -> string, k: string)
    ensures ValueFile(hash, k) == hash(k) + ['.'] + "bin"
    ensures KeyFile(hash, k) == hash(k) + ['.'] + "key"
    ensures TempFile(hash, k) == hash(k) + ['.'] + "bin.tmp"
  {
    assert ".bin" == ['.'] + "bin" && ".key" == ['.'] + "key" && ".bin" + ".tmp" == ['.'] + "bin.tmp";
  }

  lemma KindsApart()
    ensures "bin" != "key" && "bin.tmp" != "bin" && "bin.tmp" != "key"
  {
    assert "bin"[0] != "key"[0];
    assert |"bin.tmp"| != |"bin"| && |"bin.tmp"| != |"key"|;
  }

  lemma NamesApart(hash: string -> string, j: string, k: string)
    requires Ideal(hash)
    ensures ValueFile(hash, j) == ValueFile(hash, k) ==> j == k
    ensures KeyFile(hash, j) == KeyFile(hash, k) ==> j == k
    ensures TempFile(hash, j) == TempFile(hash, k) ==> j == k
    ensures ValueFile(hash, j) != KeyFile(hash, k)
    ensures TempFile(hash, j) != ValueFile(hash, k) && TempFile(hash, j) != KeyFile(hash, k)
    ensures HasSuffix(KeyFile(hash, j), ".key")
    ensures !HasSuffix(ValueFile(hash, j), ".key") && !HasSuffix(TempFile(hash, j), ".key")
  {
    NameParts(hash, j);
    NameParts(hash, k);
    KindsApart();
    NamesOfKinds(hash, j, k, "bin", "bin");
    NamesOfKinds(hash, j, k, "key", "key");
    NamesOfKinds(hash, j, k, "bin.tmp", "bin.tmp");
    NamesOfKinds(hash, j, k, "bin", "key");
    NamesOfKinds(hash, j, k, "bin.tmp", "bin");
    NamesOfKinds(hash, j, k, "bin.tmp", "key");
    Suffixes(hash(j));
  }

  lemma NamesOfKinds(hash: string -> string, j: string, k: string, a: string, b: string)
    requires Ideal(hash)
    ensures hash(j) + ['.'] + a == hash(k) + ['.'] + b ==> j == k && a == b
  {
    if hash(j) + ['.'] + a == hash(k) + ['.'] + b {
      SuffixApart(hash(j), hash(k), a, b);
    }
  }

  lemma Suffixes(h: string)
    ensures HasSuffix(h + ".key", ".key")
    ensures !HasSuffix(h + ".bin", ".key") && !HasSuffix(h + ".bin" + ".tmp", ".key")
  {
    var n := |h|;
    assert (h + ".key")[n..] == ".key" && (h + ".bin")[n..] == ".bin" && ".bin"[1] != ".key"[1];
    assert (h + ".bin" + ".tmp")[n + 4..] == ".tmp" && ".tmp"[1] != ".key"[1];
  }

  /* ---------- Every operation is all or nothing for its key ---------- */

  /** Whether a Put took effect: the rename is the moment. */
  predicate PutApplies(plan: PutPlan) { plan.mkdir.Works? && plan.write.Works? && plan.rename.Works? }

  /** A Put by its file names: it changes the value file only by the rename, and no other name but the
      temporary file and the sidecar. */
  lemma PutTouches(files: Files, vpath: string, kpath: string, tmp: string,
                   key: string, value: string, plan: PutPlan, name: string)
    requires vpath != kpath && name != tmp && name != kpath
    ensures var (after, status) := PutAt(files, vpath, kpath, tmp, key, value, plan);
            && (name in after <==> (name == vpath && PutApplies(plan)) || name in files)
            && (name in after ==> after[name] == if name == vpath && PutApplies(plan) then value else files[name])
            && (status == Done ==> PutApplies(plan))
  {
  }

  /** Whatever stops a Put, a later Get of the key returns the complete old or the complete new value,
      the new one if Put reported success, and no other key's value changes. */
  lemma PutIsAtomic(files: Files, hash: string -> string, key: string, value: string, plan: PutPlan, k: string)
    requires Ideal(hash)
    ensures var (after, status) := AfterPut(files, hash, key, value, plan);
            && Lookup(after, hash, k) ==
                 (if k == key && PutApplies(plan) then Some(value) else Lookup(files, hash, k))
            && (status == Done ==> PutApplies(plan))
  {
    NamesApart(hash, key, k);
    NamesApart(hash, k, key);
    NamesApart(hash, key, key);
    PutTouches(files, ValueFile(hash, key), KeyFile(hash, key), TempFile(hash, key), key, value, plan, ValueFile(hash, k));
  }

  lemma DeleteIsAtomic(files: Files, hash: string -> string, key: string, plan: DeletePlan, k: string)
    requires Ideal(hash)
    ensures var (after, status) := AfterDelete(files, hash, key, plan);
            && Lookup(after, hash, k) ==
                 (if k == key && plan.value.Works? then None else Lookup(files, hash, k))
            && (status == Done ==> plan.value.Works?)
  {
    NamesApart(hash, key, k);
    NamesApart(hash, k, key);
  }

  /** Get afterwards: the key's new value or absence if the operation took effect, all else as before. */
  ghost predicate Replaces(before: Files, after: Files, hash: string -> string, key: string,
                           applies: bool, value: Option<string>)
  {
    forall k :: Lookup(after, hash, k) == (if k == key && applies then value else Lookup(before, hash, k))
  }

  lemma PutReplaces(files: Files, hash: string -> string, key: string, value: string, plan: PutPlan)
    ensures var (after, status) := AfterPut(files, hash, key, value, plan);
            && (Ideal(hash) ==> Replaces(files, after, hash, key, PutApplies(plan), Some(value)))
            && (status == Done ==> PutApplies(plan))
  {
    if Ideal(hash) {
      forall k
        ensures Lookup(AfterPut(files, hash, key, value, plan).0, hash, k) ==
                (if k == key && PutApplies(plan) then Some(value) else Lookup(files, hash, k))
      {
        PutIsAtomic(files, hash, key, value, plan, k);
      }
    }
  }

  lemma DeleteReplaces(files: Files, hash: string -> string, key: string, plan: DeletePlan)
    ensures var (after, status) := AfterDelete(files, hash, key, plan);
            && (Ideal(hash) ==> Replaces(files, after, hash, key, plan.value.Works?, None))
            && (status == Done ==> plan.value.Works?)
  {
    if Ideal(hash) {
      forall k
        ensures Lookup(AfterDelete(files, hash, key, plan).0, hash, k) ==
                (if k == key && plan.value.Works? then None else Lookup(files, hash, k))
      {
        DeleteIsAtomic(files, hash, key, plan, k);
      }
    }
  }

  /* ---------- Refinement of a map, with crashes anywhere ---------- */

  datatype Op = PutOp(key: string, value: string, put: PutPlan) | DeleteOp(key: string, del: DeletePlan)

  function FilesAfter(hash: string -> string, ops: seq<Op>, n: nat): Files
    requires n <= |ops|
  {
    if n == 0 then map[]
    else match ops[n - 1]
      case PutOp(key, value, plan) => AfterPut(FilesAfter(hash, ops, n - 1), hash, key, value, plan).0
      case DeleteOp(key, plan) => AfterDelete(FilesAfter(hash, ops, n - 1), hash, key, plan).0
  }

  /** The same operations on a map, those that stopped too early left out. */
  function MapAfter(ops: seq<Op>, n: nat): map<string, string>
    requires n <= |ops|
  {
    if n == 0 then map[]
    else match ops[n - 1]
      case PutOp(key, value, plan) => if PutApplies(plan) then MapAfter(ops, n - 1)[key := value] else MapAfter(ops, n - 1)
      case DeleteOp(key, plan) => if plan.value.Works? then MapAfter(ops, n - 1) - {key} else MapAfter(ops, n - 1)
  }

  /** After any operations, failed and crashed ones included, Get answers as the map does. */
  lemma {:induction false} StoreRefinesMap(hash: string -> string, ops: seq<Op>, n: nat, k: string)
    requires Ideal(hash) && n <= |ops|
    ensures Lookup(FilesAfter(hash, ops, n), hash, k) ==
              if k in MapAfter(ops, n) then Some(MapAfter(ops, n)[k]) else None
  {
    if n > 0 {
      StoreRefinesMap(hash, ops, n - 1, k);
      var files := FilesAfter(hash, ops, n - 1);
      match ops[n - 1] {
        case PutOp(key, value, plan) => PutIsAtomic(files, hash, key, value, plan, k);
        case DeleteOp(key, plan) => DeleteIsAtomic(files, hash, key, plan, k);
      }
    }
  }

  /* ---------- Keys, while nothing fails ---------- */

  /** Values and sidecars come in pairs, and a sidecar holds its key. */
  ghost predicate Paired(files: Files, hash: string -> string) {
    && (forall k | ValueFile(hash, k) in files :: KeyFile(hash, k) in files)
    && (forall name | name in files && HasSuffix(name, ".key") ::
          name == KeyFile(hash, files[name]) && ValueFile(hash, files[name]) in files)
  }

  predicate Clean(op: Op) {
    match op
    case PutOp(_, _, plan) => plan == PutPlan(Works, Works, Works, Works)
    case DeleteOp(_, plan) => plan == DeletePlan(Works, Works)
  }

  /** The files after a Put that worked. */
  lemma CleanPut(files: Files, hash: string -> string, key: string, value: string)
    requires Ideal(hash)
    ensures AfterPut(files, hash, key, value, PutPlan(Works, Works, Works, Works)).0 ==
              (files - {TempFile(hash, key)})[ValueFile(hash, key) := value][KeyFile(hash, key) := key]
  {
    NamesApart(hash, key, key);
  }

  lemma CleanPutValues(files: Files, hash: string -> string, key: string, value: string, after: Files, k: string)
    requires Ideal(hash) && Paired(files, hash) && ValueFile(hash, k) in after
    requires after == (files - {TempFile(hash, key)})[ValueFile(hash, key) := value][KeyFile(hash, key) := key]
    ensures KeyFile(hash, k) in after
  {
    NamesApart(hash, k, key);
    NamesApart(hash, key, k);
  }

  lemma CleanPutSidecars(files: Files, hash: string -> string, key: string, value: string, after: Files, name: string)
    requires Ideal(hash) && Paired(files, hash) && name in after && HasSuffix(name, ".key")
    requires after == (files - {TempFile(hash, key)})[ValueFile(hash, key) := value][KeyFile(hash, key) := key]
    ensures name == KeyFile(hash, after[name]) && ValueFile(hash, after[name]) in after
  {
    NamesApart(hash, key, key);
    if name != KeyFile(hash, key) {
      NamesApart(hash, key, files[name]);
    }
  }

  lemma CleanPutPaired(files: Files, hash: string -> string, key: string, value: string)
    requires Ideal(hash) && Paired(files, hash)
    ensures Paired(AfterPut(files, hash, key, value, PutPlan(Works, Works, Works, Works)).0, hash)
  {
    var after := AfterPut(files, hash, key, value, PutPlan(Works, Works, Works, Works)).0;
    CleanPut(files, hash, key, value);
    forall k | ValueFile(hash, k) in after
      ensures KeyFile(hash, k) in after
    {
      CleanPutValues(files, hash, key, value, after, k);
    }
    forall name | name in after && HasSuffix(name, ".key")
      ensures name == KeyFile(hash, after[name]) && ValueFile(hash, after[name]) in after
    {
      CleanPutSidecars(files, hash, key, value, after, name);
    }
  }

  lemma CleanDeleteValues(files: Files, hash: string -> string, key: string, after: Files, k: string)
    requires Ideal(hash) && Paired(files, hash) && ValueFile(hash, k) in after
    requires after == files - {ValueFile(hash, key)} - {KeyFile(hash, key)}
    ensures KeyFile(hash, k) in after
  {
    NamesApart(hash, k, key);
  }

  /** Removing two files leaves the others. */
  lemma Survives(files: Files, a: string, b: string, name: string)
    ensures name in files - {a} - {b} <==> name in files && name != a && name != b
    ensures name in files - {a} - {b} ==> (files - {a} - {b})[name] == files[name]
  {
  }

  lemma CleanDeleteSidecars(files: Files, hash: string -> string, key: string, after: Files, name: string)
    requires Ideal(hash) && Paired(files, hash) && name in after && HasSuffix(name, ".key")
    requires after == files - {ValueFile(hash, key)} - {KeyFile(hash, key)}
    ensures name == KeyFile(hash, after[name]) && ValueFile(hash, after[name]) in after
  {
    var vpath, kpath := ValueFile(hash, key), KeyFile(hash, key);
    Survives(files, vpath, kpath, name);
    var k := files[name];
    assert name == KeyFile(hash, k) && k != key;
    NamesApart(hash, k, key);
    Survives(files, vpath, kpath, ValueFile(hash, k));
  }

  lemma CleanDeletePaired(files: Files, hash: string -> string, key: string)
    requires Ideal(hash) && Paired(files, hash)
    ensures Paired(AfterDelete(files, hash, key, DeletePlan(Works, Works)).0, hash)
  {
    var after := AfterDelete(files, hash, key, DeletePlan(Works, Works)).0;
    assert after == files - {ValueFile(hash, key)} - {KeyFile(hash, key)};
    forall k | ValueFile(hash, k) in after
      ensures KeyFile(hash, k) in after
    {
      CleanDeleteValues(files, hash, key, after, k);
    }
    forall name | name in after && HasSuffix(name, ".key")
      ensures name == KeyFile(hash, after[name]) && ValueFile(hash, after[name]) in after
    {
      CleanDeleteSidecars(files, hash, key, after, name);
    }
  }

  lemma {:induction false} CleanRunPaired(hash: string -> string, ops: seq<Op>, n: nat)
    requires Ideal(hash) && n <= |ops| && forall i | 0 <= i < n :: Clean(ops[i])
    ensures Paired(FilesAfter(hash, ops, n), hash)
  {
    if n > 0 {
      CleanRunPaired(hash, ops, n - 1);
      var files := FilesAfter(hash, ops, n - 1);
      match ops[n - 1] {
        case PutOp(key, value, plan) => CleanPutPaired(files, hash, key, value);
        case DeleteOp(key, plan) => CleanDeletePaired(files, hash, key);
      }
    }
  }

  /** A directory listing: every name once. */
  ghost predicate Lists(entries: seq<string>, files: Files) {
    && (forall i | 0 <= i < |entries| :: entries[i] in files)
    && (forall name | name in files :: name in entries)
    && (forall i, j | 0 <= i < j < |entries| :: entries[i] != entries[j])
  }

  lemma {:induction false} ListedMembers(files: Files, entries: seq<string>, readable: string -> bool, prefix: string, k: string)
    requires forall i | 0 <= i < |entries| :: entries[i] in files
    ensures k in Listed(files, entries, readable, prefix) <==>
            exists i :: 0 <= i < |entries| && HasSuffix(entries[i], ".key") && readable(entries[i]) && files[entries[i]] == k && HasPrefix(k, prefix)
  {
    if entries != [] {
      var front := entries[..|entries| - 1];
      ListedMembers(files, front, readable, prefix, k);
      if i :| 0 <= i < |entries| && HasSuffix(entries[i], ".key") && readable(entries[i]) && files[entries[i]] == k && HasPrefix(k, prefix) {
        assert i < |front| ==> front[i] == entries[i];
      }
    }
  }

  /** Every sidecar holds the key it is named after; none is torn. */
  ghost predicate Intact(files: Files, hash: string -> string) {
    forall name | name in files && HasSuffix(name, ".key") :: name == KeyFile(hash, files[name])
  }

  lemma {:induction false} ListedDistinct(files: Files, hash: string -> string, entries: seq<string>, readable: string -> bool, prefix: string)
    requires forall i | 0 <= i < |entries| :: entries[i] in files
    requires forall i, j | 0 <= i < j < |entries| :: entries[i] != entries[j]
    requires Intact(files, hash)
    ensures var keys := Listed(files, entries, readable, prefix);
            forall i, j | 0 <= i < j < |keys| :: keys[i] != keys[j]
  {
    if entries != [] {
      var front, e := entries[..|entries| - 1], entries[|entries| - 1];
      ListedDistinct(files, hash, front, readable, prefix);
      ListedMembers(files, front, readable, prefix, files[e]);
      assert forall i | 0 <= i < |Listed(files, front, readable, prefix)| ::
          Listed(files, front, readable, prefix)[i] in Listed(files, front, readable, prefix);
    }
  }

  /** While no operation and no read failed, Keys lists exactly the stored keys with the prefix, once each. */
  lemma KeysListStoredKeys(hash: string -> string, ops: seq<Op>, entries: seq<string>, readable: string -> bool, prefix: string)
    requires Ideal(hash) && forall i | 0 <= i < |ops| :: Clean(ops[i])
    requires forall name :: readable(name)
    requires Lists(entries, FilesAfter(hash, ops, |ops|))
    ensures var keys := Listed(FilesAfter(hash, ops, |ops|), entries, readable, prefix);
            && (forall k :: k in keys <==> k in MapAfter(ops, |ops|) && HasPrefix(k, prefix))
            && (forall i, j | 0 <= i < j < |keys| :: keys[i] != keys[j])
  {
    var files := FilesAfter(hash, ops, |ops|);
    CleanRunPaired(hash, ops, |ops|);
    ListedDistinct(files, hash, entries, readable, prefix);
    forall k
      ensures k in Listed(files, entries, readable, prefix) <==> k in MapAfter(ops, |ops|) && HasPrefix(k, prefix)
    {
      StoreRefinesMap(hash, ops, |ops|, k);
      ListedMembers(files, entries, readable, prefix, k);
      NamesApart(hash, k, k);
      if k in MapAfter(ops, |ops|) && HasPrefix(k, prefix) {
        assert KeyFile(hash, k) in entries;
        var i :| 0 <= i < |entries| && entries[i] == KeyFile(hash, k);
        NamesApart(hash, files[entries[i]], k);
      }
    }
  }

  /* ---------- Keys, whatever fails ---------- */

  /** The write of the sidecar either wrote nothing or all of the key. */
  predicate Untorn(op: Op) {
    op.PutOp? && op.put.side.Stops? && op.put.side.torn.Some? ==> op.put.side.torn.value >= |op.key|
  }

  lemma PutIntact(files: Files, hash: string -> string, key: string, value: string, plan: PutPlan)
    requires Ideal(hash) && Intact(files, hash) && Untorn(PutOp(key, value, plan))
    ensures Intact(AfterPut(files, hash, key, value, plan).0, hash)
  {
    NamesApart(hash, key, key);
    var vpath, kpath, tmp := ValueFile(hash, key), KeyFile(hash, key), TempFile(hash, key);
    var after := AfterPut(files, hash, key, value, plan).0;
    forall name | name in after && HasSuffix(name, ".key")
      ensures name == KeyFile(hash, after[name])
    {
      SidecarAfterPut(files, vpath, kpath, tmp, key, value, plan, name);
    }
  }

  /** What a Put does to a file other than the value and the temporary file. */
  lemma SidecarAfterPut(files: Files, vpath: string, kpath: string, tmp: string,
                        key: string, value: string, plan: PutPlan, name: string)
    requires name != vpath && name != tmp && vpath != kpath && tmp != kpath && Untorn(PutOp(key, value, plan))
    requires name in PutAt(files, vpath, kpath, tmp, key, value, plan).0
    ensures var after := PutAt(files, vpath, kpath, tmp, key, value, plan).0;
            (name in files && after[name] == files[name]) || (name == kpath && after[name] == key)
  {
  }

  lemma DeleteIntact(files: Files, hash: string -> string, key: string, plan: DeletePlan)
    requires Intact(files, hash)
    ensures Intact(AfterDelete(files, hash, key, plan).0, hash)
  {
  }

  /** In every run, failures and crashes included, sidecars stay intact as long as no write of one is torn. */
  lemma {:induction false} RunIntact(hash: string -> string, ops: seq<Op>, n: nat)
    requires Ideal(hash) && n <= |ops| && forall i | 0 <= i < n :: Untorn(ops[i])
    ensures Intact(FilesAfter(hash, ops, n), hash)
  {
    if n > 0 {
      RunIntact(hash, ops, n - 1);
      var files := FilesAfter(hash, ops, n - 1);
      match ops[n - 1] {
        case PutOp(key, value, plan) => PutIntact(files, hash, key, value, plan);
        case DeleteOp(key, plan) => DeleteIntact(files, hash, key, plan);
      }
    }
  }

  /** With intact sidecars, Keys lists the keys that have one, once each. */
  lemma ListedIffSidecar(files: Files, hash: string -> string, entries: seq<string>, readable: string -> bool,
                         prefix: string, k: string)
    requires Ideal(hash) && Intact(files, hash) && Lists(entries, files) && forall name :: readable(name)
    ensures k in Listed(files, entries, readable, prefix) <==> KeyFile(hash, k) in files && HasPrefix(k, prefix)
  {
    ListedMembers(files, entries, readable, prefix, k);
    NamesApart(hash, k, k);
    if KeyFile(hash, k) in files {
      var i :| 0 <= i < |entries| && entries[i] == KeyFile(hash, k);
      NamesApart(hash, files[entries[i]], k);
    }
  }

  /** Every stored key with the prefix has its sidecar, and none of those sidecars is orphaned. */
  ghost predicate Matched(files: Files, hash: string -> string, prefix: string) {
    forall k: string | HasPrefix(k, prefix) :: ValueFile(hash, k) in files <==> KeyFile(hash, k) in files
  }

  /** After any operations of which none tore a sidecar, Keys lists exactly the stored keys with the prefix,
      once each, if and only if each of them has its sidecar and none of those is orphaned. */
  lemma KeysExactly(hash: string -> string, ops: seq<Op>, entries: seq<string>, readable: string -> bool, prefix: string)
    requires Ideal(hash) && (forall i | 0 <= i < |ops| :: Untorn(ops[i])) && forall name :: readable(name)
    requires Lists(entries, FilesAfter(hash, ops, |ops|))
    ensures var files := FilesAfter(hash, ops, |ops|);
            var keys := Listed(files, entries, readable, prefix);
            && ((forall k: string :: k in keys <==> k in MapAfter(ops, |ops|) && HasPrefix(k, prefix))
                  <==> Matched(files, hash, prefix))
            && (forall i, j | 0 <= i < j < |keys| :: keys[i] != keys[j])
  {
    var files := FilesAfter(hash, ops, |ops|);
    var keys := Listed(files, entries, readable, prefix);
    RunIntact(hash, ops, |ops|);
    ListedDistinct(files, hash, entries, readable, prefix);
    forall k: string
      ensures k in keys <==> KeyFile(hash, k) in files && HasPrefix(k, prefix)
      ensures k in MapAfter(ops, |ops|) <==> ValueFile(hash, k) in files
    {
      ListedIffSidecar(files, hash, entries, readable, prefix, k);
      StoreRefinesMap(hash, ops, |ops|, k);
    }
  }

  /** A torn sidecar can name a key that was never stored. */
  lemma TornSidecarLies(hash: string -> string, key: string, value: string, n: nat)
    requires Ideal(hash) && n < |key|
    ensures var ops := [PutOp(key, value, PutPlan(Works, Works, Works, Stops(true, Some(n))))];
            && KeyFile(hash, key) in FilesAfter(hash, ops, 1) && FilesAfter(hash, ops, 1)[KeyFile(hash, key)] == key[..n]
            && MapAfter(ops, 1) == map[key := value] && key[..n] != key
  {
    var ops := [PutOp(key, value, PutPlan(Works, Works, Works, Stops(true, Some(n))))];
    NamesApart(hash, key, key);
    assert FilesAfter(hash, ops, 0) == map[] && MapAfter(ops, 0) == map[];
  }

  /** A crash between the rename and the sidecar leaves a new key that Get finds and Keys cannot list. */
  lemma CrashHidesKey(files: Files, hash: string -> string, key: string, value: string)
    requires Ideal(hash) && KeyFile(hash, key) !in files
    ensures var after := AfterPut(files, hash, key, value, PutPlan(Works, Works, Works, Stops(true, None))).0;
            Lookup(after, hash, key) == Some(value) && KeyFile(hash, key) !in after
  {
    NamesApart(hash, key, key);
  }
}
