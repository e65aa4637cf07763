/** Where `Persist` keeps its map: a file and the `.old` copy of its previous contents
    (landscape/lib/persist.py:124-188, 636-644). */
module PersistFile {
  import opened Common
  import opened KeyOrder
  import opened Bpickle
  import opened BpickleProofs

  /** The two files, absent or with their contents. */
  datatype Disk = Disk(main: Option<Bytes>, backup: Option<Bytes>)

  /** How far `save` gets before the process dies. `Written(n)` is after `open(..., "wb")` has
      truncated the file and `n` bytes have reached it. */
  datatype Stop = BeforeRename | AfterRename | Written(n: nat) | Completed

  function Renamed(d: Disk): Disk {
    if d.main.Some? then Disk(None, d.main) else d
  }

  /** What `save` leaves on disk when it stops at `stop`. */
  function Saved(d: Disk, data: Bytes, stop: Stop): Disk {
    match stop
    case BeforeRename => d
    case AfterRename => Renamed(d)
    case Written(n) => Renamed(d).(main := Some(if n <= |data| then data[..n] else data))
    case Completed => Renamed(d).(main := Some(data))
  }

  /** The map after `load`, or a `PersistError`. */
  datatype Recovered = Recovered(map_: Value) | Broken

  /** `load_old()`, given what to do when there is no usable `.old` file. */
  function LoadOld(d: Disk, otherwise: Recovered): Recovered {
    if d.backup.Some? && d.backup.value != [] then
      match Loads(d.backup.value, false)
      case Loaded(v) => Recovered(v)
      case Raised(_) => Broken
    else otherwise
  }

  /** `load`: `current` is the map before the call, kept when both files are empty. */
  function LoadMap(d: Disk, current: Value): Recovered {
    match d.main
    case None => LoadOld(d, Broken)
    case Some(data) =>
      if data == [] then LoadOld(d, Recovered(current))
      else
        match Loads(data, false)
        case Loaded(v) => Recovered(v)
        case Raised(_) => LoadOld(d, Broken)
  }

  /** The main file holds data that loads. */
  predicate MainLoads(d: Disk) {
    d.main.Some? && Loads(d.main.value, false).Loaded?
  }

  /** The `.old` file holds data that loads. */
  predicate OldLoads(d: Disk) {
    d.backup.Some? && Loads(d.backup.value, false).Loaded?
  }

  /** Saving `map_` can stop anywhere, and loading still gives the old map or the new one. */
  ghost predicate SaveIsAtomic(d: Disk, map_: Value, current: Value)
    requires Dumpable(map_)
  {
    forall stop ::
      var r := LoadMap(Saved(d, Dumps(map_), stop), current);
      r.Recovered? && (r == LoadMap(d, current) || r == Recovered(map_))
  }

  lemma LoadsEmpty(asIs: bool)
    ensures Loads([], asIs).Raised?
  {
  }

  lemma LoadableDumps(v: Value)
    requires Loadable(v, false)
    ensures Dumpable(v)
  {
  }

  lemma LoadsWhole(v: Value)
    requires Loadable(v, false)
    ensures Loads(Dumps(v), false) == Loaded(v)
  {
    assert Dumps(v) + [] == Dumps(v);
    LoadsDumps(v, [], false);
  }

  /** One crash point, for a disk whose main file loads or does not exist. */
  lemma StopIsSafe(d: Disk, map_: Value, current: Value, stop: Stop)
    requires map_.VDict? && Loadable(map_, false)
    requires LoadMap(d, current).Recovered? && (d.main.None? || MainLoads(d))
    ensures var r := LoadMap(Saved(d, Dumps(map_), stop), current);
            r == LoadMap(d, current) || r == Recovered(map_)
  {
    hide Loads, Dumps, Loadable, Dumpable, NoBytesKeys;
    LoadableDumps(map_);
    LoadsEmpty(false);
    LoadsWhole(map_);
    if stop.Written? && stop.n < |Dumps(map_)| {
      TornContainerFails(map_, stop.n, false);
    } else {
      assert Dumps(map_)[..|Dumps(map_)|] == Dumps(map_);
    }
  }

  /** A save is safe at every point exactly when it starts with a main file that loads, or with
      no main file and an `.old` file that loads. The very first save is not, and neither is the
      first one after a recovery from `.old`. */
  lemma SaveIsAtomicWhen(d: Disk, map_: Value, current: Value)
    requires map_.VDict? && Loadable(map_, false)
    ensures SaveIsAtomic(d, map_, current) <==> MainLoads(d) || (d.main.None? && OldLoads(d))
  {
    hide Loads, Dumps, Loadable, Dumpable, NoBytesKeys;
    LoadableDumps(map_);
    LoadsEmpty(false);
    if MainLoads(d) || (d.main.None? && OldLoads(d)) {
      forall stop
        ensures var r := LoadMap(Saved(d, Dumps(map_), stop), current);
                r.Recovered? && (r == LoadMap(d, current) || r == Recovered(map_))
      {
        StopIsSafe(d, map_, current, stop);
      }
    } else {
      assert LoadMap(Saved(d, Dumps(map_), AfterRename), current) == Broken;
    }
  }

  /** Any number of completed saves, from any disk, followed by one that stops anywhere: the last
      complete map or the one being written. */
  lemma {:induction false} SavesThenCrash(d: Disk, maps: seq<Value>, map_: Value, current: Value, stop: Stop)
    requires forall m :: m in maps ==> m.VDict? && Dumpable(m) && Loadable(m, false)
    requires map_.VDict? && Loadable(map_, false)
    requires maps == [] ==> MainLoads(d) || (d.main.None? && OldLoads(d))
    ensures var last := SavedAll(d, maps);
            && LoadMap(last, current)
               == (if maps == [] then LoadMap(d, current) else Recovered(maps[|maps| - 1]))
            && var r := LoadMap(Saved(last, Dumps(map_), stop), current);
               r == LoadMap(last, current) || r == Recovered(map_)
    decreases |maps|
  {
    hide Loads, Dumps;
    LoadsEmpty(false);
    if maps == [] {
      StopIsSafe(d, map_, current, stop);
    } else {
      var first, rest := maps[0], maps[1..];
      assert first in maps;
      LoadsWhole(first);
      assert forall m :: m in rest ==> m in maps;
      SavesThenCrash(Saved(d, Dumps(first), Completed), rest, map_, current, stop);
    }
  }

  ghost function SavedAll(d: Disk, maps: seq<Value>): Disk
    requires forall m :: m in maps ==> Dumpable(m)
    decreases |maps|
  {
    if maps == [] then d
    else assert maps[0] in maps; SavedAll(Saved(d, Dumps(maps[0]), Completed), maps[1..])
  }

  /** Two crashes in a row: a save torn after at least one byte, recovered from `.old`, and a
      second save that stops right after its rename leave nothing that loads. */
  lemma SecondCrashLoses(d: Disk, first: Value, n: nat, second: Bytes, current: Value)
    requires MainLoads(d) && first.VDict? && Dumpable(first) && 0 < n < |Dumps(first)|
    ensures var torn := Saved(d, Dumps(first), Written(n));
            && LoadMap(torn, current) == LoadMap(d, current)
            && LoadMap(Saved(torn, second, AfterRename), current) == Broken
  {
    hide Loads, Dumps, Loadable;
    LoadsEmpty(false);
    TornContainerFails(first, n, false);
  }

  // ---------------------------------------------------------------------------------
  // Restarting
  // ---------------------------------------------------------------------------------

  const EMPTY_MAP := VDict(map[])

  /** What a new `Persist` with the file's name starts from: it calls `load` only if the main
      file exists, and has an empty map otherwise. */
  function Restarted(d: Disk): Recovered {
    if d.main.None? then Recovered(EMPTY_MAP) else LoadMap(d, EMPTY_MAP)
  }

  /** The file is there and loads as `v`. */
  predicate Holds(file: Option<Bytes>, v: Value) {
    file.Some? && Loads(file.value, false) == Loaded(v)
  }

  /** The file is absent or empty. */
  predicate Blank(file: Option<Bytes>) {
    file.None? || file.value == []
  }

  /** A client that starts from these files has the empty map. */
  predicate StartsEmpty(d: Disk) {
    || d.main.None? || Holds(d.main, EMPTY_MAP)
    || (!MainLoads(d) && Holds(d.backup, EMPTY_MAP))
    || (Blank(d.main) && Blank(d.backup))
  }

  /** The files, the stops and the new map after which a restarted client has the old map or the
      new one. After the rename nothing is in the main file's place, and the restart does not look
      further: that is right only if the old or the new map is empty. Inside the write, the `.old`
      file has to make good for the torn one. It does if the main file was good. Otherwise it does
      if there was no main file and `.old` holds the empty map, which the client had, or by chance
      the new one; and before the first byte, if what is then in `.old` is empty and so was the old
      map, or the new one is. */
  predicate RestartSafe(d: Disk, map_: Value, stop: Stop, length: nat) {
    match stop
    case BeforeRename => true
    case AfterRename => StartsEmpty(d) || map_ == EMPTY_MAP
    case Written(n) =>
      || n >= length || MainLoads(d)
      || (d.main.None? && (Holds(d.backup, EMPTY_MAP) || Holds(d.backup, map_)))
      || (n == 0 && (if d.main.None? then Blank(d.backup)
                     else d.main == Some([]) && (StartsEmpty(d) || map_ == EMPTY_MAP)))
    case Completed => true
  }

  /** For any disk a client can start from: restarted after a save that stopped, it has the old
      map or the new one if and only if that is safe. */
  lemma RestartIsSafeWhen(d: Disk, map_: Value, stop: Stop)
    requires map_.VDict? && Loadable(map_, false) && Restarted(d).Recovered?
    ensures var r := Restarted(Saved(d, Dumps(map_), stop));
            r == Restarted(d) || r == Recovered(map_) <==> RestartSafe(d, map_, stop, |Dumps(map_)|)
    ensures stop.AfterRename? ==> Restarted(Saved(d, Dumps(map_), stop)) == Recovered(EMPTY_MAP)
    ensures stop.AfterRename? && d.main.Some? ==> Saved(d, Dumps(map_), stop).backup == d.main
  {
    hide Loads, Dumps, Loadable, Dumpable, NoBytesKeys;
    LoadableDumps(map_);
    LoadsEmpty(false);
    LoadsWhole(map_);
    if stop.Written? && stop.n < |Dumps(map_)| {
      TornContainerFails(map_, stop.n, false);
      if stop.n == 0 {
        assert Dumps(map_)[..0] == [];
      }
    } else {
      assert Dumps(map_)[..|Dumps(map_)|] == Dumps(map_);
    }
  }

  /** In particular for the very first save, with neither file there: it is safe if and only if
      it does not stop inside the write, after at least one byte. Such a stop leaves nothing that
      loads. */
  lemma FirstSaveTorn(map_: Value, stop: Stop)
    requires map_.VDict? && Loadable(map_, false)
    ensures var d, r := Disk(None, None), Restarted(Saved(Disk(None, None), Dumps(map_), stop));
            && Restarted(d) == Recovered(EMPTY_MAP)
            && (r == Recovered(EMPTY_MAP) || r == Recovered(map_)
                <==> !(stop.Written? && 0 < stop.n < |Dumps(map_)|))
            && (stop.Written? && 0 < stop.n < |Dumps(map_)| ==> r == Broken)
  {
    hide Loads, Dumps, Loadable, Dumpable, NoBytesKeys;
    LoadableDumps(map_);
    RestartIsSafeWhen(Disk(None, None), map_, stop);
    if stop.Written? && stop.n < |Dumps(map_)| {
      TornContainerFails(map_, stop.n, false);
    }
  }
}
