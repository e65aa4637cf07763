/** The message store on disk: one file per message in numbered directories, the HELD flag in
    the file's name, and lazy walks over both (landscape/client/broker/store.py). */
module FileStore {
  import opened SM = StoreModel

  /** `<dir>/<num>` or `<dir>/<num>_h`. */
  datatype File = File(dir: nat, num: nat, held: bool)

  /** Walk order: by directory, then by number. */
  predicate Before(a: File, b: File) {
    a.dir < b.dir || (a.dir == b.dir && a.num < b.num)
  }

  ghost predicate Increasing(s: seq<File>) {
    forall i, j :: 0 <= i < j < |s| ==> Before(s[i], s[j])
  }

  /** `s` lists the files `fs` in walk order. No two of them share a number in a directory. */
  ghost predicate Lists(s: seq<File>, fs: set<File>) {
    Increasing(s) && forall f :: f in s <==> f in fs
  }

  lemma {:induction false} ListsUnique(s: seq<File>, t: seq<File>, fs: set<File>)
    requires Lists(s, fs) && Lists(t, fs)
    ensures s == t
    decreases |s|
  {
    assert (s != [] ==> s[0] in s) && (t != [] ==> t[0] in t);
    if s != [] {
      assert s[0] in t && t[0] in s;
      assert s[0] == t[0];
      TailLists(s, fs);
      TailLists(t, fs);
      ListsUnique(s[1..], t[1..], fs - {s[0]});
      assert s == [s[0]] + s[1..] && t == [t[0]] + t[1..];
    }
  }

  lemma TailLists(s: seq<File>, fs: set<File>)
    requires Lists(s, fs) && s != []
    ensures Lists(s[1..], fs - {s[0]})
  {
    forall f ensures f in s[1..] <==> f in fs - {s[0]} {
      if f in s[1..] {
        var i :| 0 <= i < |s[1..]| && s[1..][i] == f;
        assert s[i + 1] == f && Before(s[0], s[i + 1]);
      }
      if f in fs && f != s[0] {
        var i :| 0 <= i < |s| && s[i] == f;
        assert s[1..][i - 1] == f;
      }
    }
  }

  // ---------------------------------------------------------------------------------
  // Files of some directories
  // ---------------------------------------------------------------------------------

  /** The files among `s` that lie in one of the directories `ds`. */
  function InDirs(s: seq<File>, ds: seq<nat>): seq<File> {
    if s == [] then []
    else if s[0].dir in ds then [s[0]] + InDirs(s[1..], ds) else InDirs(s[1..], ds)
  }

  lemma {:induction false} InDirsConcat(a: seq<File>, b: seq<File>, ds: seq<nat>)
    ensures InDirs(a + b, ds) == InDirs(a, ds) + InDirs(b, ds)
    decreases |a|
  {
    if a == [] {
      assert a + b == b;
    } else {
      assert (a + b)[0] == a[0] && (a + b)[1..] == a[1..] + b;
      InDirsConcat(a[1..], b, ds);
    }
  }

  lemma {:induction false} InDirsMembers(s: seq<File>, ds: seq<nat>, f: File)
    ensures f in InDirs(s, ds) <==> f in s && f.dir in ds
  {
    if s != [] {
      InDirsMembers(s[1..], ds, f);
      assert f in s <==> f == s[0] || f in s[1..];
    }
  }

  lemma {:induction false} InDirsIncreasing(s: seq<File>, ds: seq<nat>)
    requires Increasing(s)
    ensures Increasing(InDirs(s, ds))
  {
    if s != [] {
      InDirsIncreasing(s[1..], ds);
      var r := InDirs(s[1..], ds);
      forall j | 0 <= j < |r| ensures Before(s[0], r[j]) {
        InDirsMembers(s[1..], ds, r[j]);
        var i :| 0 <= i < |s[1..]| && s[1..][i] == r[j];
        assert s[i + 1] == r[j];
      }
    }
  }

  lemma InDirsNone(s: seq<File>, ds: seq<nat>)
    requires forall f :: f in s ==> f.dir !in ds
    ensures InDirs(s, ds) == []
  {
    if f :| f in InDirs(s, ds) {
      InDirsMembers(s, ds, f);
    }
  }

  ghost predicate Rising(ds: seq<nat>) {
    forall i, j :: 0 <= i < j < |ds| ==> ds[i] < ds[j]
  }

  /** The files of rising directories are those of the first, then those of the others. */
  lemma InDirsFirst(s: seq<File>, ds: seq<nat>)
    requires Increasing(s) && Rising(ds) && ds != []
    ensures InDirs(s, ds) == InDirs(s, ds[..1]) + InDirs(s, ds[1..])
  {
    var a, b := InDirs(s, ds[..1]), InDirs(s, ds[1..]);
    InDirsIncreasing(s, ds);
    InDirsIncreasing(s, ds[..1]);
    InDirsIncreasing(s, ds[1..]);
    var fs := set f | f in s && f.dir in ds;
    forall f ensures f in InDirs(s, ds) <==> f in fs {
      InDirsMembers(s, ds, f);
    }
    forall f ensures f in a + b <==> f in fs {
      InDirsMembers(s, ds[..1], f);
      InDirsMembers(s, ds[1..], f);
      assert f.dir in ds <==> f.dir in ds[..1] || f.dir in ds[1..];
    }
    forall i, j | 0 <= i < |a| && 0 <= j < |b| ensures Before(a[i], b[j]) {
      InDirsMembers(s, ds[..1], a[i]);
      InDirsMembers(s, ds[1..], b[j]);
      assert a[i].dir == ds[0];
      var k :| 0 <= k < |ds[1..]| && ds[1..][k] == b[j].dir;
      assert ds[k + 1] == b[j].dir;
    }
    ListsUnique(InDirs(s, ds), a + b, fs);
  }

  lemma {:induction false} InAllDirs(s: seq<File>, ds: seq<nat>)
    requires forall f :: f in s ==> f.dir in ds
    ensures InDirs(s, ds) == s
  {
    if s != [] {
      assert s[0] in s && forall f :: f in s[1..] ==> f in s;
      InAllDirs(s[1..], ds);
      assert [s[0]] + s[1..] == s;
    }
  }

  // ---------------------------------------------------------------------------------
  // Contents
  // ---------------------------------------------------------------------------------

  /** The queue entries the files `s` stand for. */
  ghost function Entries(s: seq<File>, files: map<File, Message>): (q: seq<Entry>)
    requires forall f :: f in s ==> f in files
    ensures |q| == |s|
  {
    seq(|s|, i requires 0 <= i < |s| => assert s[i] in s; Entry(files[s[i]], s[i].held))
  }
}
