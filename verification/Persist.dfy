/** `Persist`: a map in memory, edited by path and kept in a file (landscape/lib/persist.py). */
module Persist {
  import opened Common
  import opened KeyOrder
  import opened Bpickle
  import opened BpickleCode
  import opened PersistTree
  import opened PersistFile

  datatype Result<+T> = Done(value: T) | PersistError

  /** The two files a `Persist` writes. */
  class Files {
    var main: Option<Bytes>
    var backup: Option<Bytes>

    ghost function Disk(): Disk
      reads this
    {
      PersistFile.Disk.Disk(main, backup)
    }
  }

  class Persist {
    var hardmap: Value

    constructor ()
      ensures hardmap == VDict(map[])
    {
      hardmap := VDict(map[]);
    }

    /** `Persist(filename=...)`: loads if the main file exists. */
    static method Open(files: Files) returns (r: Result<Persist>)
      ensures match Restarted(files.Disk())
              case Recovered(v) => r.Done? && fresh(r.value) && r.value.hardmap == v
              case Broken => r.PersistError?
    {
      var p := new Persist();
      if files.main.Some? {
        var loaded := p.Load(files);
        if loaded.PersistError? {
          return PersistError;
        }
      }
      r := Done(p);
    }

    /** `_traverse` without a value: down from `obj`, one key at a time. */
    method Traverse(path: Path) returns (r: Found)
      ensures r == Lookup(hardmap, path)
    {
      var queue := path;
      var obj := hardmap;
      while queue != []
        invariant Lookup(obj, queue) == Lookup(hardmap, path)
        decreases |queue|
      {
        var elem := VText(queue[0]);
        queue := queue[1..];
        if !obj.VDict? {
          return Blocked;
        }
        if elem !in obj.m {
          return Missing;
        }
        obj := obj.m[elem];
      }
      r := Found(obj);
    }

    method Get(path: Path, default: Value) returns (r: Result<Value>)
      ensures r == match Lookup(hardmap, path)
                   case Found(v) => Done(v)
                   case Missing => Done(default)
                   case Blocked => PersistError
    {
      var found := Traverse(path);
      match found
      case Found(v) => r := Done(v);
      case Missing => r := Done(default);
      case Blocked => r := PersistError;
    }

    /** `set`: `_traverse` with a value. One loop goes down as far as there is something; when
        that is not the whole path, another puts empty dictionaries below, one at a time. */
    method Set(path: Path, value: Value) returns (r: Result<()>)
      requires path != []
      modifies this
      ensures r.Done? <==> !old(Lookup(hardmap, path)).Blocked?
      ensures r.Done? ==> SetAt(old(hardmap), path, value) == Some(hardmap)
      ensures r.Done? ==> Lookup(hardmap, path) == Found(value)
      ensures r.PersistError? ==> hardmap == old(hardmap)
    {
      hide Lookup, SetAt, PutKey, HasParent;
      ghost var before := hardmap;
      LookupHere(hardmap, path);
      var at, obj := 0, hardmap;
      while at < |path|
        invariant at <= |path| && hardmap == before
        invariant Lookup(hardmap, path[..at]) == Found(obj) && Lookup(hardmap, path) == Lookup(obj, path[at..])
        decreases |path| - at
      {
        var elem := VText(path[at]);
        assert path[at..][0] == path[at] && path[at..][1..] == path[at + 1..];
        LookupNext(hardmap, path, at);
        LookupStep(obj, path[at..]);
        if !obj.VDict? {
          return PersistError;
        }
        if elem !in obj.m {
          break;
        }
        obj := obj.m[elem];
        at := at + 1;
      }
      SetFailsAtLeaves(hardmap, path, value);
      if at == |path| {
        assert path[..at] == path;
        at := at - 1;
        AboveFound(hardmap, path);
        assert path[..at + 1] == path;
      } else {
        ParentAt(hardmap, path, at);
      }
      while at + 1 < |path|
        invariant at < |path| && HasParent(hardmap, path[..at + 1])
        invariant at + 1 < |path| ==> Lookup(hardmap, path[..at + 1]).Missing?
        invariant SetAt(hardmap, path, value) == SetAt(before, path, value)
        decreases |path| - at
      {
        PutEmptyThenSet(hardmap, path, at + 1, value);
        hardmap := PutKey(hardmap, path[..at + 1], VDict(map[]));
        at := at + 1;
      }
      assert path[..at + 1] == path;
      PutIsSet(hardmap, path, value);
      hardmap := PutKey(hardmap, path, value);
      r := Done(());
    }

    /** `remove`: deletes the last key, then walks up as long as a dictionary is left empty.
        The result tells whether the last round deleted anything. */
    method Remove(path: Path) returns (r: Result<bool>)
      requires path != []
      modifies this
      ensures r.Done? <==> HasParent(old(hardmap), path) || old(Lookup(hardmap, path[..|path| - 1])).Missing?
      ensures HasParent(old(hardmap), path) ==> hardmap == Pruned(old(hardmap), path)
      ensures !HasParent(old(hardmap), path) ==> hardmap == old(hardmap) && r != Done(true)
      ensures HasParent(old(hardmap), path) ==>
                r == Done(old(Lookup(hardmap, path)).Found?
                          || (|path| > 1 && old(Lookup(hardmap, path[..|path| - 1])).node == VDict(map[])))
    {
      var rest := path;
      var result := false;
      ghost var before := hardmap;
      while rest != []
        invariant rest == path ==> hardmap == before
        invariant rest != path ==> HasParent(before, path) && RemoveResult(before, path) == (rest != [] || result)
        invariant rest != path && rest != [] ==>
                    && HasParent(hardmap, rest) && Lookup(hardmap, rest).Found?
                    && Pruned(hardmap, rest) == Pruned(before, path)
        invariant rest == [] ==> hardmap == Pruned(before, path)
        decreases |rest|
      {
        var parent := Traverse(rest[..|rest| - 1]);
        match parent {
          case Blocked =>
            return PersistError;
          case Missing =>
            return Done(false);
          case Found(obj) =>
            if !obj.VDict? {
              return PersistError;
            }
            var elem := VText(rest[|rest| - 1]);
            result := elem in obj.m;
            LookupLast(hardmap, rest);
            DeleteThenPrune(hardmap, rest);
            hardmap := DeleteKey(hardmap, rest);
            if obj.m - {elem} == map[] {
              rest := rest[..|rest| - 1];
            } else {
              break;
            }
        }
      }
      r := Done(result);
    }

    /** `save`, stopping where `stop` says; nothing of it happens in memory. */
    method Save(files: Files, stop: Stop)
      requires Dumpable(hardmap)
      modifies files
      ensures files.Disk() == Saved(old(files.Disk()), Dumps(hardmap), stop)
    {
      if stop.BeforeRename? {
        return;
      }
      if files.main.Some? {
        files.backup := files.main;
        files.main := None;
      }
      if stop.AfterRename? {
        return;
      }
      files.main := Some([]);
      var data := DumpsValue(hardmap);
      if stop.Written? && stop.n <= |data| {
        files.main := Some(data[..stop.n]);
      } else {
        files.main := Some(data);
      }
    }

    /** `load_old`: whether the map was replaced. */
    method LoadOldFile(files: Files) returns (r: Result<bool>)
      modifies this
      ensures files.backup.None? || files.backup.value == [] ==> r == Done(false) && hardmap == old(hardmap)
      ensures files.backup.Some? && files.backup.value != [] ==>
                match Loads(files.backup.value, false)
                case Loaded(v) => r == Done(true) && hardmap == v
                case Raised(_) => r == PersistError && hardmap == old(hardmap)
    {
      if files.backup.Some? && files.backup.value != [] {
        var o := LoadsBytes(files.backup.value, false);
        match o {
          case Loaded(v) =>
            hardmap := v;
            return Done(true);
          case Raised(_) =>
            return PersistError;
        }
      }
      r := Done(false);
    }

    /** `load`. */
    method Load(files: Files) returns (r: Result<()>)
      modifies this
      ensures match LoadMap(files.Disk(), old(hardmap))
              case Recovered(v) => r == Done(()) && hardmap == v
              case Broken => r == PersistError && hardmap == old(hardmap)
    {
      if files.main.None? {
        var loaded := LoadOldFile(files);
        return if loaded == Done(true) then Done(()) else PersistError;
      }
      if files.main.value == [] {
        var loaded := LoadOldFile(files);
        return if loaded.Done? then Done(()) else PersistError;
      }
      var o := LoadsBytes(files.main.value, false);
      match o {
        case Loaded(v) =>
          hardmap := v;
          r := Done(());
        case Raised(_) =>
          var loaded := LoadOldFile(files);
          r := if loaded == Done(true) then Done(()) else PersistError;
      }
    }
  }
}
