/** The path-addressed tree behind `Persist`: nested dictionaries with text keys
    (landscape/lib/persist.py:190-349, 530-608). Anything that is not a dictionary is a leaf. */
module PersistTree {
  import opened Common
  import opened KeyOrder

  type Path = seq<Bytes>

  /** Found a node; found nothing; or tried to go through a leaf, which is a `PersistError`. */
  datatype Found = Found(node: Value) | Missing | Blocked

  /** `_traverse` without a value to set. */
  function Lookup(t: Value, path: Path): Found
    decreases |path|
  {
    if path == [] then Found(t)
    else if !t.VDict? then Blocked
    else if VText(path[0]) !in t.m then Missing
    else Lookup(t.m[VText(path[0])], path[1..])
  }

  /** `value` below the dictionaries that `path` needs. */
  function Nest(path: Path, value: Value): Value
    decreases |path|
  {
    if path == [] then value else VDict(map[VText(path[0]) := Nest(path[1..], value)])
  }

  /** `_traverse` with a value to set: the new tree, unless a leaf is in the way. */
  function SetAt(t: Value, path: Path, value: Value): Option<Value>
    requires path != []
    decreases |path|
  {
    if !t.VDict? then None
    else
      var k := VText(path[0]);
      if |path| == 1 || k !in t.m then Some(VDict(t.m[k := Nest(path[1..], value)]))
      else
        match SetAt(t.m[k], path[1..], value)
        case None => None
        case Some(child) => Some(VDict(t.m[k := child]))
  }

  /** The dictionary that holds the last key of `path` exists. */
  predicate HasParent(t: Value, path: Path) {
    path != [] && Lookup(t, path[..|path| - 1]).Found? && Lookup(t, path[..|path| - 1]).node.VDict?
  }

  lemma ParentBelow(t: Value, path: Path)
    requires HasParent(t, path) && |path| > 1
    ensures t.VDict? && VText(path[0]) in t.m && HasParent(t.m[VText(path[0])], path[1..])
  {
    var up := path[..|path| - 1];
    assert up[0] == path[0] && up[1..] == path[1..][..|path| - 2];
  }

  /** `Backend.set` of the last key: nothing else changes. */
  function PutKey(t: Value, path: Path, value: Value): (r: Value)
    requires HasParent(t, path)
    ensures r.VDict?
    decreases |path|
  {
    var k := VText(path[0]);
    if |path| == 1 then
      assert path[..0] == [];
      VDict(t.m[k := value])
    else
      ParentBelow(t, path);
      VDict(t.m[k := PutKey(t.m[k], path[1..], value)])
  }

  /** `Backend.remove` of the last key: nothing else changes. */
  function DeleteKey(t: Value, path: Path): (r: Value)
    requires HasParent(t, path)
    ensures r.VDict?
    decreases |path|
  {
    var k := VText(path[0]);
    if |path| == 1 then
      assert path[..0] == [];
      VDict(t.m - {k})
    else
      ParentBelow(t, path);
      VDict(t.m[k := DeleteKey(t.m[k], path[1..])])
  }

  /** `remove`: deletes the last key, then every dictionary this leaves empty on the way up. */
  function Pruned(t: Value, path: Path): (r: Value)
    requires HasParent(t, path)
    ensures r.VDict?
    decreases |path|
  {
    var k := VText(path[0]);
    if |path| == 1 then
      assert path[..0] == [];
      VDict(t.m - {k})
    else
      ParentBelow(t, path);
      var child := Pruned(t.m[k], path[1..]);
      if child.m == map[] then VDict(t.m - {k}) else VDict(t.m[k := child])
  }

  /** What `remove` reports: the key was there, or an inner dictionary that was empty anyway
      was pruned. */
  predicate RemoveResult(t: Value, path: Path)
    requires HasParent(t, path)
  {
    Lookup(t, path).Found? || (|path| > 1 && Lookup(t, path[..|path| - 1]).node == VDict(map[]))
  }

  /** Nothing is found where a dictionary on the way lacks the next key; a leaf on the way is an
      error. */
  lemma {:induction false} LookupMeaning(t: Value, path: Path)
    ensures Lookup(t, path).Missing? <==>
              exists i :: 0 <= i < |path| && Lookup(t, path[..i]).Found? && Lookup(t, path[..i]).node.VDict?
                          && VText(path[i]) !in Lookup(t, path[..i]).node.m
    ensures Lookup(t, path).Blocked? <==>
              exists i :: 0 <= i < |path| && Lookup(t, path[..i]).Found? && !Lookup(t, path[..i]).node.VDict?
    decreases |path|
  {
    if path != [] {
      assert path[..0] == [];
      if t.VDict? && VText(path[0]) in t.m {
        var child, rest := t.m[VText(path[0])], path[1..];
        LookupMeaning(child, rest);
        forall i | 0 < i < |path|
          ensures Lookup(t, path[..i]) == Lookup(child, rest[..i - 1]) && path[i] == rest[i - 1]
        {
          assert path[..i][0] == path[0] && path[..i][1..] == rest[..i - 1];
        }
        forall i | 0 <= i < |rest|
          ensures Lookup(child, rest[..i]) == Lookup(t, path[..i + 1]) && path[i + 1] == rest[i]
        {
        }
      } else {
        assert Lookup(t, path[..0]) == Found(t);
      }
    }
  }

  /** A path is found when the dictionary above it has its last key. */
  lemma {:induction false} LookupLast(t: Value, path: Path)
    requires path != []
    ensures HasParent(t, path) ==>
              (Lookup(t, path).Found? <==> VText(path[|path| - 1]) in Lookup(t, path[..|path| - 1]).node.m)
    decreases |path|
  {
    var up := path[..|path| - 1];
    if |path| == 1 {
      assert up == [];
    } else {
      assert up[0] == path[0] && up[1..] == path[1..][..|path| - 2];
      if t.VDict? && VText(path[0]) in t.m {
        LookupLast(t.m[VText(path[0])], path[1..]);
      }
    }
  }

  /** One round of the loop in `remove`: the key goes, and pruning goes on one level up exactly
      when that leaves an empty dictionary below the root. */
  lemma {:induction false} DeleteThenPrune(t: Value, path: Path)
    requires HasParent(t, path)
    ensures var up, t' := path[..|path| - 1], DeleteKey(t, path);
            var left := Lookup(t, up).node.m - {VText(path[|path| - 1])};
            && Lookup(t', up) == Found(VDict(left))
            && (left != map[] || up == [] ==> Pruned(t, path) == t')
            && (left == map[] && up != [] ==> HasParent(t', up) && Pruned(t', up) == Pruned(t, path))
    decreases |path|
  {
    var up, t' := path[..|path| - 1], DeleteKey(t, path);
    if |path| == 1 {
      assert up == [];
    } else {
      var k, c, rest := VText(path[0]), t.m[VText(path[0])], path[1..];
      ParentBelow(t, path);
      DeleteThenPrune(c, rest);
      var upRest := rest[..|rest| - 1];
      assert up[0] == path[0] && up[1..] == upRest;
      if |up| == 1 {
        assert upRest == [] && up[..0] == [];
        assert t'.m - {k} == t.m - {k};
      } else {
        assert up[..|up| - 1][1..] == upRest[..|upRest| - 1];
        assert t'.m[k := Pruned(c, rest)] == t.m[k := Pruned(c, rest)];
        assert t'.m - {k} == t.m - {k};
      }
    }
  }

  // ---------------------------------------------------------------------------------
  // Setting
  // ---------------------------------------------------------------------------------

  /** Neither path is a prefix of the other. */
  ghost predicate Diverge(p: Path, q: Path) {
    !(p <= q) && !(q <= p)
  }

  lemma DivergeBelow(p: Path, q: Path)
    requires Diverge(p, q)
    ensures p != [] && q != []
    ensures p[0] == q[0] ==> Diverge(p[1..], q[1..])
  {
    if p[0] == q[0] {
      assert p == [p[0]] + p[1..] && q == [q[0]] + q[1..];
    }
  }

  lemma {:induction false} LookupNest(path: Path, value: Value)
    ensures Lookup(Nest(path, value), path) == Found(value)
    decreases |path|
  {
    if path != [] {
      LookupNest(path[1..], value);
    }
  }

  lemma {:induction false} NestMisses(path: Path, value: Value, q: Path)
    requires Diverge(path, q)
    ensures Lookup(Nest(path, value), q) == Missing
    decreases |path|
  {
    DivergeBelow(path, q);
    if path[0] == q[0] {
      NestMisses(path[1..], value, q[1..]);
    }
  }

  /** `get` after `set` returns the value. */
  lemma {:induction false} GetAfterSet(t: Value, path: Path, value: Value)
    requires path != [] && SetAt(t, path, value).Some?
    ensures Lookup(SetAt(t, path, value).value, path) == Found(value)
    decreases |path|
  {
    var k := VText(path[0]);
    if |path| == 1 || k !in t.m {
      LookupNest(path[1..], value);
    } else {
      GetAfterSet(t.m[k], path[1..], value);
    }
  }

  /** The end of the loop in `_traverse` that creates what is missing: when the dictionary above
      is there, putting the value is all there is to do. */
  lemma {:induction false} PutIsSet(t: Value, path: Path, value: Value)
    requires HasParent(t, path)
    ensures SetAt(t, path, value) == Some(PutKey(t, path, value))
    ensures Lookup(PutKey(t, path, value), path) == Found(value)
    decreases |path|
  {
    if |path| == 1 {
      assert path[..0] == [];
    } else {
      ParentBelow(t, path);
      PutIsSet(t.m[VText(path[0])], path[1..], value);
    }
  }

  /** One round of that loop: an empty dictionary at a missing place on the way. */
  lemma {:induction false} PutEmptyThenSet(t: Value, path: Path, n: nat, value: Value)
    requires 0 < n < |path| && HasParent(t, path[..n]) && Lookup(t, path[..n]).Missing?
    ensures var t' := PutKey(t, path[..n], VDict(map[]));
            && SetAt(t', path, value) == SetAt(t, path, value)
            && HasParent(t', path[..n + 1]) && Lookup(t', path[..n + 1]).Missing?
    decreases n
  {
    var k, front := VText(path[0]), path[..n];
    var t' := PutKey(t, front, VDict(map[]));
    PutIsSet(t, front, VDict(map[]));
    assert path[..n + 1][..n] == front;
    LookupLast(t', path[..n + 1]);
    MissingBelow(t', path[..n + 1]);
    if n == 1 {
      assert front[..0] == [];
      assert t'.m[k := Nest(path[1..], value)] == t.m[k := Nest(path[1..], value)];
      assert SetAt(t'.m[k], path[1..], value) == Some(Nest(path[1..], value));
    } else {
      ParentBelow(t, front);
      assert front[1..] == path[1..][..n - 1];
      PutEmptyThenSet(t.m[k], path[1..], n - 1, value);
      var c := SetAt(t.m[k], path[1..], value);
      if c.Some? {
        assert t'.m[k := c.value] == t.m[k := c.value];
      }
    }
  }

  /** A place in a dictionary is missing when the key is. */
  lemma {:induction false} MissingBelow(t: Value, path: Path)
    requires HasParent(t, path)
    ensures !Lookup(t, path).Blocked?
    decreases |path|
  {
    if |path| == 1 {
      assert path[..0] == [];
    } else {
      ParentBelow(t, path);
      MissingBelow(t.m[VText(path[0])], path[1..]);
    }
  }

  lemma LookupHere(t: Value, path: Path)
    ensures Lookup(t, path[..0]) == Found(t) && path[0..] == path
  {
  }

  lemma LookupStep(t: Value, path: Path)
    requires path != []
    ensures Lookup(t, path)
         == if !t.VDict? then Blocked
            else if VText(path[0]) !in t.m then Missing
            else Lookup(t.m[VText(path[0])], path[1..])
  {
  }

  lemma ParentAt(t: Value, path: Path, at: nat)
    requires at < |path| && Lookup(t, path[..at]).Found? && Lookup(t, path[..at]).node.VDict?
    ensures HasParent(t, path[..at + 1])
  {
    assert path[..at + 1][..at] == path[..at];
  }

  /** One step down. */
  lemma {:induction false} LookupNext(t: Value, path: Path, at: nat)
    requires at < |path| && Lookup(t, path[..at]).Found?
    ensures Lookup(t, path) == Lookup(Lookup(t, path[..at]).node, path[at..])
    ensures Lookup(t, path[..at + 1])
         == (var obj := Lookup(t, path[..at]).node;
             if !obj.VDict? then Blocked
             else if VText(path[at]) !in obj.m then Missing
             else Found(obj.m[VText(path[at])]))
    decreases at
  {
    if at == 0 {
      assert path[..0] == [] && path[0..] == path && path[..1][1..] == [];
    } else {
      var rest := path[1..];
      assert path[..at][1..] == rest[..at - 1] && path[..at + 1][1..] == rest[..at];
      LookupNext(t.m[VText(path[0])], rest, at - 1);
    }
  }

  /** Above a place that is found is a dictionary. */
  lemma AboveFound(t: Value, path: Path)
    requires path != [] && Lookup(t, path).Found?
    ensures HasParent(t, path)
    decreases |path|
  {
    var up := path[..|path| - 1];
    if |path| == 1 {
      assert up == [];
    } else {
      assert up[0] == path[0] && up[1..] == path[1..][..|path| - 2];
      AboveFound(t.m[VText(path[0])], path[1..]);
    }
  }

  /** `set` fails exactly when a leaf lies on a proper prefix of the path. */
  lemma {:induction false} SetFailsAtLeaves(t: Value, path: Path, value: Value)
    requires path != []
    ensures SetAt(t, path, value).None? <==> Lookup(t, path).Blocked?
    decreases |path|
  {
    if t.VDict? && VText(path[0]) in t.m && |path| > 1 {
      SetFailsAtLeaves(t.m[VText(path[0])], path[1..], value);
    }
  }

  /** `set` leaves every other path alone. */
  lemma {:induction false} SetFrame(t: Value, path: Path, value: Value, q: Path)
    requires path != [] && SetAt(t, path, value).Some? && Diverge(path, q)
    ensures Lookup(SetAt(t, path, value).value, q) == Lookup(t, q)
    decreases |path|
  {
    var k := VText(path[0]);
    DivergeBelow(path, q);
    if path[0] == q[0] {
      if k !in t.m {
        NestMisses(path[1..], value, q[1..]);
      } else {
        assert |path| > 1;
        SetFrame(t.m[k], path[1..], value, q[1..]);
      }
    }
  }

  // ---------------------------------------------------------------------------------
  // Removing
  // ---------------------------------------------------------------------------------

  /** After `remove` there is nothing at the path. */
  lemma {:induction false} GetAfterRemove(t: Value, path: Path)
    requires HasParent(t, path)
    ensures Lookup(Pruned(t, path), path) == Missing
    decreases |path|
  {
    if |path| == 1 {
      assert path[..0] == [];
    } else {
      ParentBelow(t, path);
      GetAfterRemove(t.m[VText(path[0])], path[1..]);
    }
  }

  /** `remove`, pruning included, leaves every other path alone. */
  lemma {:induction false} RemoveFrame(t: Value, path: Path, q: Path)
    requires HasParent(t, path) && Diverge(path, q)
    ensures Lookup(Pruned(t, path), q) == Lookup(t, q)
    decreases |path|
  {
    DivergeBelow(path, q);
    if |path| == 1 {
      assert path[..0] == [];
      assert path[0] == q[0] ==> path <= q;
    } else {
      ParentBelow(t, path);
      if path[0] == q[0] {
        DivergeBelow(path[1..], q[1..]);
        RemoveFrame(t.m[VText(path[0])], path[1..], q[1..]);
      }
    }
  }

  /** The last dictionary that already exists on the way to an absent path has an entry. */
  ghost predicate LandsInEntries(t: Value, path: Path)
    requires path != [] && Lookup(t, path).Missing?
    decreases |path|
  {
    var k := VText(path[0]);
    if |path| > 1 && k in t.m then LandsInEntries(t.m[k], path[1..]) else t.m != map[]
  }

  lemma {:induction false} SetThenParent(t: Value, path: Path, value: Value)
    requires path != [] && SetAt(t, path, value).Some?
    ensures HasParent(SetAt(t, path, value).value, path)
    decreases |path|
  {
    var k, t' := VText(path[0]), SetAt(t, path, value).value;
    if |path| == 1 {
      assert path[..0] == [];
    } else {
      var up := path[..|path| - 1];
      assert up[0] == path[0] && up[1..] == path[1..][..|path| - 2];
      if k in t.m {
        SetThenParent(t.m[k], path[1..], value);
      } else {
        NestParent(path[1..], value);
      }
    }
  }

  lemma {:induction false} NestParent(path: Path, value: Value)
    requires path != []
    ensures HasParent(Nest(path, value), path)
    decreases |path|
  {
    if |path| == 1 {
      assert path[..0] == [];
    } else {
      var up := path[..|path| - 1];
      assert up[0] == path[0] && up[1..] == path[1..][..|path| - 2];
      NestParent(path[1..], value);
    }
  }

  lemma {:induction false} PrunedNest(path: Path, value: Value)
    requires path != []
    ensures HasParent(Nest(path, value), path) && Pruned(Nest(path, value), path) == VDict(map[])
    decreases |path|
  {
    NestParent(path, value);
    if |path| > 1 {
      PrunedNest(path[1..], value);
    }
  }

  /** Setting an absent path and removing it again restores the tree exactly when the last
      dictionary that already existed on the way is the root or has an entry. */
  lemma {:induction false} SetThenRemove(t: Value, path: Path, value: Value)
    requires path != [] && Lookup(t, path).Missing?
    ensures SetAt(t, path, value).Some? && HasParent(SetAt(t, path, value).value, path)
    ensures Pruned(SetAt(t, path, value).value, path) == t
       <==> VText(path[0]) !in t.m || LandsInEntries(t, path)
    decreases |path|
  {
    SetFailsAtLeaves(t, path, value);
    SetThenParent(t, path, value);
    var k, t' := VText(path[0]), SetAt(t, path, value).value;
    if k !in t.m {
      if |path| > 1 {
        PrunedNest(path[1..], value);
      }
      assert t'.m - {k} == t.m;
    } else {
      var c, rest := t.m[k], path[1..];
      assert |path| > 1;
      SetThenRemove(c, rest, value);
      ParentBelow(t', path);
      var e := Pruned(SetAt(c, rest, value).value, rest);
      assert Pruned(t', path) == if e.m == map[] then VDict(t'.m - {k}) else VDict(t'.m[k := e]);
      assert k !in t'.m - {k};
      assert t'.m[k := e] == t.m[k := e];
      assert t.m[k := e] == t.m <==> e == c by {
        assert t.m[k := e][k] == e;
      }
    }
  }

  /** In a tree without empty inner dictionaries it always does. */
  lemma {:induction false} InnerEntries(t: Value, path: Path)
    requires path != [] && Lookup(t, path).Missing? && NoEmptyInner(t)
    ensures VText(path[0]) !in t.m || LandsInEntries(t, path)
    decreases |path|
  {
    var k := VText(path[0]);
    if k in t.m {
      InnerEntries(t.m[k], path[1..]);
    }
  }

  ghost predicate NoEmptyInner(t: Value)
    decreases t
  {
    t.VDict? ==> forall k :: k in t.m ==> t.m[k] != VDict(map[]) && NoEmptyInner(t.m[k])
  }

  /** Two rooted views on diverging roots do not see each other's changes. */
  lemma RootsIndependent(t: Value, r: Path, p: Path, value: Value, s: Path, q: Path)
    requires Diverge(r, s)
    ensures r + p != [] && Diverge(r + p, s + q)
    ensures SetAt(t, r + p, value).Some? ==> Lookup(SetAt(t, r + p, value).value, s + q) == Lookup(t, s + q)
    ensures HasParent(t, r + p) ==> Lookup(Pruned(t, r + p), s + q) == Lookup(t, s + q)
  {
    DivergeBelow(r, s);
    StillDiverge(r, p, s, q);
    if SetAt(t, r + p, value).Some? {
      SetFrame(t, r + p, value, s + q);
    }
    if HasParent(t, r + p) {
      RemoveFrame(t, r + p, s + q);
    }
  }

  lemma {:induction false} StillDiverge(r: Path, p: Path, s: Path, q: Path)
    requires Diverge(r, s)
    ensures Diverge(r + p, s + q)
    decreases |r|
  {
    DivergeBelow(r, s);
    if r[0] == s[0] {
      StillDiverge(r[1..], p, s[1..], q);
      assert (r + p)[1..] == r[1..] + p && (s + q)[1..] == s[1..] + q;
    } else {
      assert (r + p)[0] == r[0] && (s + q)[0] == s[0];
    }
  }
}
