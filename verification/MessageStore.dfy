/** `MessageStore`: the operations on the files, proved against `StoreModel`. */
module MessageStore {
  import opened Common
  import opened SM = StoreModel
  import opened FileStore

  /** The files a walk still has to visit: the rest of the directory listing it has taken, and
      the directories of its first listing it has not entered. */
  ghost function Remaining(order: seq<File>, rest: seq<File>, later: seq<nat>): seq<File> {
    rest + InDirs(order, later)
  }

  /** The directories a walk has yet to list exist, and come after the files it has listed. */
  ghost predicate WalkerOk(rest: seq<File>, later: seq<nat>, dirs: set<nat>) {
    Rising(later) && (forall d :: d in later ==> d in dirs) && forall f, d :: f in rest && d in later ==> f.dir < d
  }

  /** `order` lists the files in walk order, every file's directory exists, and no directory
      has more than `size` files. */
  ghost predicate DiskOk(order: seq<File>, files: map<File, Message>, dirs: set<nat>, size: nat) {
    && size > 0
    && Lists(order, files.Keys)
    && (forall f :: f in order ==> f.dir in dirs)
    && (forall d {:trigger InDirs(order, [d])} :: |InDirs(order, [d])| <= size)
  }

  /** In a valid store no two files share a number in a directory, not even a held and a live
      one, and no directory has more than `size` files. */
  lemma DirectoriesBounded(order: seq<File>, files: map<File, Message>, dirs: set<nat>, size: nat, dir: nat)
    requires DiskOk(order, files, dirs, size)
    ensures forall f, g :: f in files && g in files && f.dir == g.dir && f.num == g.num ==> f == g
    ensures |set f | f in files && f.dir == dir| <= size
  {
    forall f, g | f in files && g in files && f.dir == g.dir && f.num == g.num ensures f == g {
      assert f in order && g in order;
      var i, j :| 0 <= i < |order| && 0 <= j < |order| && order[i] == f && order[j] == g;
      assert i < j ==> Before(order[i], order[j]);
      assert j < i ==> Before(order[j], order[i]);
    }
    var here := set f | f in files && f.dir == dir;
    forall f | f in here ensures f in InDirs(order, [dir]) {
      InDirsMembers(order, [dir], f);
    }
    AtMost(InDirs(order, [dir]), here);
  }

  lemma {:induction false} AtMost(s: seq<File>, fs: set<File>)
    requires forall f :: f in fs ==> f in s
    ensures |fs| <= |s|
    decreases |s|
  {
    if s != [] {
      forall f | f in fs - {s[0]} ensures f in s[1..] {
        assert s == [s[0]] + s[1..];
      }
      AtMost(s[1..], fs - {s[0]});
      assert |fs| <= |fs - {s[0]}| + 1;
    } else {
      assert fs == {};
    }
  }

  /** Every directory with a later one is full. */
  ghost predicate Packed(order: seq<File>, dirs: set<nat>, size: nat) {
    forall d, e :: d in dirs && e in dirs && d < e ==> |InDirs(order, [d])| == size
  }

  const RESYNCHRONIZE := "resynchronize"

  const WEEK := 60 * 60 * 24 * 7

  class MessageStore {
    const directorySize: nat
    const maxDirs: nat
    var dirs: set<nat>
    var files: map<File, Message>
    var sequence: int
    var pendingOffset: nat
    var acceptedTypes: set<string>
    var serverApi: int
    var firstFailureTime: Option<int>
    var blackhole: bool
    ghost var order: seq<File>

    ghost predicate Valid()
      reads this
    {
      DiskOk(order, files, dirs, directorySize)
    }

    ghost function Queue(): (q: seq<Entry>)
      requires Valid()
      reads this
    {
      Entries(order, files)
    }

    ghost function Model(): Store
      requires Valid()
      reads this
    {
      Store(Queue(), sequence, pendingOffset, acceptedTypes, serverApi)
    }

    constructor (directorySize: nat, maxDirs: nat, serverApi: int)
      requires directorySize > 0
      ensures Valid() && Model() == Store([], 0, 0, {}, serverApi)
      ensures this.directorySize == directorySize && this.maxDirs == maxDirs && dirs == {}
      ensures !blackhole && firstFailureTime == None
    {
      this.directorySize := directorySize;
      this.maxDirs := maxDirs;
      this.serverApi := serverApi;
      dirs, files, order := {}, map[], [];
      sequence, pendingOffset, acceptedTypes := 0, 0, {};
      firstFailureTime, blackhole := None, false;
    }

    /** The store after a restart, opened on the directory and the metadata an earlier one left. */
    constructor Reopen(earlier: MessageStore)
      requires earlier.Valid()
      ensures Valid() && Model() == earlier.Model() && dirs == earlier.dirs && files == earlier.files
      ensures directorySize == earlier.directorySize && maxDirs == earlier.maxDirs
      ensures blackhole == earlier.blackhole && firstFailureTime == earlier.firstFailureTime
      ensures serverApi == earlier.serverApi
    {
      directorySize, maxDirs, serverApi := earlier.directorySize, earlier.maxDirs, earlier.serverApi;
      dirs, files, order := earlier.dirs, earlier.files, earlier.order;
      sequence, pendingOffset, acceptedTypes := earlier.sequence, earlier.pendingOffset, earlier.acceptedTypes;
      firstFailureTime, blackhole := earlier.firstFailureTime, earlier.blackhole;
    }

    // -------------------------------------------------------------------------------
    // Listings
    // -------------------------------------------------------------------------------

    /** `_get_sorted_filenames()`: the directories, by number. */
    method SortedDirs() returns (r: seq<nat>)
      ensures Rising(r) && |r| == |dirs| && forall i, j :: 0 <= i < j < |r| ==> r[i] < r[j]
      ensures forall d :: d in r <==> d in dirs
    {
      var rest := dirs;
      r := [];
      while rest != {}
        invariant Rising(r) && |r| + |rest| == |dirs|
        invariant forall d :: d in dirs <==> d in r || d in rest
        invariant forall c, d :: c in r && d in rest ==> c < d
        decreases rest
      {
        ghost var least := Least(rest);
        assert least in rest && forall e :: e in rest ==> least <= e;
        var d :| d in rest && forall e :: e in rest ==> d <= e;
        RisingSnoc(r, d);
        r := r + [d];
        rest := rest - {d};
      }
    }

    /** `_get_sorted_filenames(dir)`: the files of one directory, by number. */
    method Listing(dir: nat) returns (r: seq<File>)
      requires Valid() && dir in dirs
      ensures r == InDirs(order, [dir])
      ensures forall f :: f in r <==> f in files && f.dir == dir
      ensures forall i, j :: 0 <= i < j < |r| ==> r[i].num < r[j].num
    {
      var here := set f | f in files && f.dir == dir;
      ghost var all := InDirs(order, [dir]);
      InDirsIncreasing(order, [dir]);
      forall f ensures f in all <==> f in here {
        InDirsMembers(order, [dir], f);
      }
      r := SortFiles(here, all);
    }

    /** One step of a walk. A directory is listed when the walk enters it. */
    method Advance(rest: seq<File>, later: seq<nat>)
      returns (more: bool, f: File, rest': seq<File>, later': seq<nat>)
      requires Valid() && WalkerOk(rest, later, dirs)
      ensures WalkerOk(rest', later', dirs)
      ensures !more ==> Remaining(order, rest, later) == [] && rest' == [] && later' == []
      ensures more ==> Remaining(order, rest, later) == [f] + Remaining(order, rest', later')
      ensures more ==> forall d :: d in later' ==> f.dir < d
      ensures forall d :: d in later' ==> d in later
    {
      rest', later' := rest, later;
      while rest' == [] && later' != []
        invariant WalkerOk(rest', later', dirs)
        invariant Remaining(order, rest', later') == Remaining(order, rest, later)
        invariant forall d :: d in later' ==> d in later
        decreases |later'|
      {
        var dir := later'[0];
        InDirsFirst(order, later');
        assert later'[..1] == [dir];
        rest' := Listing(dir);
        forall g | g in rest' ensures g.dir == dir {
          InDirsMembers(order, [dir], g);
        }
        assert forall d :: d in later'[1..] ==> d in later';
        later' := later'[1..];
      }
      more := rest' != [];
      if more {
        f := rest'[0];
        assert f in rest';
        assert rest' == [f] + rest'[1..];
        rest' := rest'[1..];
      } else {
        f := File(0, 0, false);
        assert later' == [];
        InDirsNone(order, []);
      }
    }

    /** The start of a walk over everything. */
    method StartWalk() returns (later: seq<nat>)
      requires Valid()
      ensures WalkerOk([], later, dirs) && Remaining(order, [], later) == order
      ensures forall d :: d in later <==> d in dirs
    {
      later := SortedDirs();
      InAllDirs(order, later);
    }

    // -------------------------------------------------------------------------------
    // File operations
    // -------------------------------------------------------------------------------

    /** `_set_flags`: a rename in place. */
    method SetHeld(f: File, held: bool, ghost a: seq<File>, ghost b: seq<File>) returns (g: File)
      requires Valid() && order == a + [f] + b
      modifies this`files, this`order
      ensures Valid() && g == File(f.dir, f.num, held) && order == a + [g] + b
      ensures Queue() == old(Queue())[|a| := Entry(old(Queue())[|a|].msg, held)]
    {
      g := File(f.dir, f.num, held);
      EditDisk(a, f, b, g, files, dirs, directorySize);
      files := (files - {f})[g := files[f]];
      order := a + [g] + b;
    }

    /** `os.unlink`. The directory stays. */
    method UnlinkFile(f: File, ghost a: seq<File>, ghost b: seq<File>)
      requires Valid() && order == a + [f] + b
      modifies this`files, this`order
      ensures Valid() && order == a + b
      ensures Queue() == old(Queue())[..|a|] + old(Queue())[|a| + 1..]
    {
      RemoveDisk(a, f, b, files, dirs, directorySize);
      files := files - {f};
      order := a + b;
    }

    /** `os.unlink`, and `os.rmdir` when that was the last file of its directory. */
    method Unlink(f: File, ghost a: seq<File>, ghost b: seq<File>)
      requires Valid() && order == a + [f] + b
      modifies this`files, this`order, this`dirs
      ensures Valid() && order == a + b
      ensures Queue() == old(Queue())[..|a|] + old(Queue())[|a| + 1..]
      ensures old(dirs) - {f.dir} <= dirs <= old(dirs) && Swept(old(order), old(dirs), order, dirs)
    {
      UnlinkFile(f, a, b);
      assert forall g :: g in order <==> g in files;
      SweptOne(a, f, b, dirs);
      if !exists g :: g in files && g.dir == f.dir {
        dirs := dirs - {f.dir};
      }
    }

    /** `os.rename` of a file to the end of the queue. */
    method MoveToEnd(f: File, g: File, ghost a: seq<File>, ghost b: seq<File>)
      requires Valid() && order == a + [f] + b
      requires g.dir in dirs && |InDirs(order, [g.dir])| < directorySize
      requires forall h :: h in order ==> Before(h, g)
      modifies this`files, this`order
      ensures Valid() && order == a + b + [g]
      ensures Queue() == old(Queue())[..|a|] + old(Queue())[|a| + 1..] + [Entry(old(Queue())[|a|].msg, g.held)]
    {
      RemoveDisk(a, f, b, files, dirs, directorySize);
      forall h | h in a + b ensures Before(h, g) {
        assert h in order;
      }
      InDirsRemove(a, f, b, [g.dir]);
      AppendDisk(a + b, g, files[f], files - {f}, dirs, directorySize);
      files := (files - {f})[g := files[f]];
      order := a + b + [g];
    }

    /** `create_binary_file` and its rename, under a fresh name. */
    method Create(g: File, m: Message)
      requires Valid() && g.dir in dirs && |InDirs(order, [g.dir])| < directorySize
      requires forall h :: h in order ==> Before(h, g)
      modifies this`files, this`order
      ensures Valid() && order == old(order) + [g]
      ensures Queue() == old(Queue()) + [Entry(m, g.held)]
    {
      AppendDisk(order, g, m, files, dirs, directorySize);
      files := files[g := m];
      order := order + [g];
    }

    /** `_get_next_message_filename`: unused, last in walk order, in a directory with room. */
    method NextMessageFilename() returns (f: File)
      requires Valid()
      modifies this`dirs
      ensures Valid() && !f.held && f.dir in dirs && |InDirs(order, [f.dir])| < directorySize
      ensures forall g :: g in order ==> Before(g, f)
      ensures dirs == old(dirs) + {f.dir} && forall d :: d in dirs ==> d <= f.dir
      ensures var names := InDirs(order, [f.dir]);
              f.num == if names == [] then 0 else names[|names| - 1].num + 1
      ensures old(dirs) == {} ==> f == File(0, 0, false)
      ensures f.dir in old(dirs) || old(dirs) == {}
              || (f.dir >= 1 && f.dir - 1 in old(dirs) && |InDirs(order, [f.dir - 1])| == directorySize)
    {
      hide DiskOk, InDirs, Increasing;
      var newest := NewestDir();
      DiskFacts(order, files, dirs, directorySize);
      var names := Listing(newest);
      f := if names == [] then File(newest, 0, false)
           else if |names| < directorySize then File(newest, names[|names| - 1].num + 1, false)
           else File(newest + 1, 0, false);
      if newest !in old(dirs) {
        InDirsNone(order, [newest]);
      }
      NameAfterAll(order, newest, f);
      MoreDirs(order, files, dirs, directorySize, f.dir);
      dirs := dirs + {f.dir};
    }

    /** The directory of the last message, made if there is none. */
    method NewestDir() returns (newest: nat)
      requires Valid()
      modifies this`dirs
      ensures Valid() && newest in dirs && forall d :: d in dirs ==> d <= newest
      ensures if old(dirs) == {} then dirs == {0} && forall g :: g in order ==> g.dir != newest else dirs == old(dirs)
    {
      var messageDirs := SortedDirs();
      DiskFacts(order, files, dirs, directorySize);
      if messageDirs == [] {
        newest := 0;
        MoreDirs(order, files, dirs, directorySize, 0);
        dirs := dirs + {0};
        return;
      }
      newest := messageDirs[|messageDirs| - 1];
      assert newest in messageDirs;
      forall d | d in dirs ensures d <= newest {
        assert d in messageDirs;
      }
    }

    // -------------------------------------------------------------------------------
    // Walks over the queue
    // -------------------------------------------------------------------------------

    /** In the middle of a walk over what was the queue `q`: the first `i` entries have been
        visited and left the files `done`, the others are as they were. */
    ghost predicate Walking(q: seq<Entry>, i: nat, done: seq<File>, left: seq<Entry>, rest: seq<File>, later: seq<nat>)
      reads this
    {
      && Valid() && WalkerOk(rest, later, dirs)
      && order == done + Remaining(order, rest, later)
      && |done| == |left| && i <= |q| && Queue() == left + q[i..]
    }

    /** The walk has reached the file `f`, which stands for entry `i`. */
    ghost predicate Here(q: seq<Entry>, i: nat, done: seq<File>, left: seq<Entry>, f: File, rest: seq<File>,
                         later: seq<nat>)
      reads this
    {
      && Valid() && WalkerOk(rest, later, dirs) && (forall d :: d in later ==> f.dir < d)
      && order == done + [f] + Remaining(order, rest, later)
      && |done| == |left| && i < |q| && Queue() == left + q[i..]
      && f in files && q[i] == Entry(files[f], f.held)
    }

    method StartVisit() returns (later: seq<nat>)
      requires Valid()
      ensures Walking(Queue(), 0, [], [], [], later)
      ensures forall d :: d in later <==> d in dirs
    {
      later := StartWalk();
      assert Queue()[0..] == Queue() && [] + Queue() == Queue() && [] + order == order;
    }

    /** `next` on the generator of a walk. */
    method Visit(rest: seq<File>, later: seq<nat>,
                 ghost q: seq<Entry>, ghost i: nat, ghost done: seq<File>, ghost left: seq<Entry>)
      returns (more: bool, f: File, rest': seq<File>, later': seq<nat>)
      requires Walking(q, i, done, left, rest, later)
      ensures if more then Here(q, i, done, left, f, rest', later')
              else i == |q| && Walking(q, i, done, left, rest', later')
      ensures forall d :: d in later' ==> d in later
    {
      more, f, rest', later' := Advance(rest, later);
      assert |Queue()| == |order|;
      if more {
        assert order == done + [f] + Remaining(order, rest', later');
        assert order[|done|] == f && f in order;
        assert Queue()[|done|] == Entry(files[f], f.held);
      } else {
        InDirsNone(order, []);
      }
    }

    lemma Pass(q: seq<Entry>, i: nat, done: seq<File>, left: seq<Entry>, f: File, rest: seq<File>, later: seq<nat>)
      requires Here(q, i, done, left, f, rest, later)
      ensures Walking(q, i + 1, done + [f], left + [q[i]], rest, later)
    {
      assert left + q[i..] == (left + [q[i]]) + q[i + 1..];
    }

    lemma HereEntry(q: seq<Entry>, i: nat, done: seq<File>, left: seq<Entry>, f: File, rest: seq<File>, later: seq<nat>)
      requires Here(q, i, done, left, f, rest, later)
      ensures i < |q| && f in files && q[i] == Entry(files[f], f.held)
      ensures q[i..] != [] && q[i..][0] == q[i] && q[i..][1..] == q[i + 1..]
    {
    }

    /** Reaching a file and leaving it for later is no step at all. */
    lemma HereWalking(q: seq<Entry>, i: nat, done: seq<File>, left: seq<Entry>, f: File, rest: seq<File>,
                      later: seq<nat>)
      requires Here(q, i, done, left, f, rest, later)
      ensures Walking(q, i, done, left, [f] + rest, later)
    {
      assert done + [f] + Remaining(order, rest, later) == done + Remaining(order, [f] + rest, later);
    }

    lemma WalkedQueue(q: seq<Entry>, i: nat, done: seq<File>, left: seq<Entry>, rest: seq<File>, later: seq<nat>)
      requires Walking(q, i, done, left, rest, later)
      ensures Valid() && i <= |q| && Queue() == left + q[i..]
    {
    }

    /** Flags the file the walk has reached. */
    method Hold(f: File, rest: seq<File>, later: seq<nat>,
                ghost q: seq<Entry>, ghost i: nat, ghost done: seq<File>, ghost left: seq<Entry>)
      returns (g: File)
      requires Here(q, i, done, left, f, rest, later)
      modifies this`files, this`order
      ensures Walking(q, i + 1, done + [g], left + [Entry(q[i].msg, true)], rest, later)
    {
      ghost var todo := Remaining(order, rest, later);
      InDirsEdit(done, f, todo, File(f.dir, f.num, true), later);
      g := SetHeld(f, true, done, todo);
      assert (left + q[i..])[|left| := Entry(q[i].msg, true)] == (left + [Entry(q[i].msg, true)]) + q[i + 1..];
    }

    /** Deletes the file the walk has reached. */
    method Delete(f: File, rest: seq<File>, later: seq<nat>,
                  ghost q: seq<Entry>, ghost i: nat, ghost done: seq<File>, ghost left: seq<Entry>)
      requires Here(q, i, done, left, f, rest, later)
      modifies this`files, this`order, this`dirs
      ensures Walking(q, i + 1, done, left, rest, later) && dirs <= old(dirs)
      ensures Swept(old(order), old(dirs), order, dirs)
    {
      hide Swept;
      ghost var todo := Remaining(order, rest, later);
      InDirsRemove(done, f, todo, later);
      Unlink(f, done, todo);
      assert (left + q[i..])[..|left|] + (left + q[i..])[|left| + 1..] == left + q[i + 1..];
    }

    /** Deletes the file the walk has reached and leaves its directory. */
    method DeleteFile(f: File, rest: seq<File>, later: seq<nat>,
                      ghost q: seq<Entry>, ghost i: nat, ghost done: seq<File>, ghost left: seq<Entry>)
      requires Here(q, i, done, left, f, rest, later)
      modifies this`files, this`order
      ensures Walking(q, i + 1, done, left, rest, later)
    {
      ghost var todo := Remaining(order, rest, later);
      InDirsRemove(done, f, todo, later);
      UnlinkFile(f, done, todo);
      assert (left + q[i..])[..|left|] + (left + q[i..])[|left| + 1..] == left + q[i + 1..];
    }

    /** `count_pending_messages`. */
    method CountPendingMessages() returns (count: nat)
      requires Valid()
      ensures count == PendingCount(Model())
    {
      hide Walking, Here, DiskOk, Entries;
      ghost var q, i, done, left := Queue(), 0, [], [];
      var later := StartVisit();
      var rest := [];
      var index := 0;
      count := 0;
      WholeSuffix(q);
      while true
        invariant Walking(q, i, done, left, rest, later) && i <= |q|
        invariant index + |Live(q[i..])| == |Live(q)|
        invariant count == if index <= pendingOffset then 0 else index - pendingOffset
        decreases |q| - i
      {
        var more, f;
        more, f, rest, later := Visit(rest, later, q, i, done, left);
        if !more {
          break;
        }
        HereEntry(q, i, done, left, f, rest, later);
        Pass(q, i, done, left, f, rest, later);
        if !f.held {
          if index >= pendingOffset {
            count := count + 1;
          }
          index := index + 1;
        }
        done, left, i := done + [f], left + [q[i]], i + 1;
      }
    }

    /** `is_pending`. */
    method IsPendingMessage(messageId: nat) returns (b: bool)
      requires Valid()
      ensures b == IsPending(Model(), messageId)
    {
      hide Walking, Here, DiskOk, Entries;
      ghost var q, i, done, left := Queue(), 0, [], [];
      var later := StartVisit();
      var rest := [];
      var index := 0;
      WholeSuffix(q);
      while true
        invariant Walking(q, i, done, left, rest, later) && i <= |q|
        invariant IsPendingFrom(q, 0, pendingOffset, messageId)
               == IsPendingFrom(q[i..], index, pendingOffset, messageId)
        decreases |q| - i
      {
        var more, f;
        more, f, rest, later := Visit(rest, later, q, i, done, left);
        if !more {
          return false;
        }
        HereEntry(q, i, done, left, f, rest, later);
        Pass(q, i, done, left, f, rest, later);
        if (f.held || index >= pendingOffset) && files[f].id == messageId {
          return true;
        }
        if !f.held {
          index := index + 1;
        }
        done, left, i := done + [f], left + [q[i]], i + 1;
      }
    }

    /** `delete_old_messages`. */
    method DeleteOldMessages()
      requires Valid()
      modifies this`files, this`order, this`dirs
      ensures Valid() && dirs <= old(dirs) && Swept(old(order), old(dirs), order, dirs)
      ensures Model() == old(Model()).(queue := DropLive(old(Queue()), pendingOffset))
    {
      hide Walking, Here, DiskOk, Entries, Swept;
      SweptNone(order, dirs);
      ghost var q, i, done, left := Queue(), 0, [], [];
      var later := StartVisit();
      var rest := [];
      var count := pendingOffset;
      WholeSuffix(q);
      while count > 0
        invariant Walking(q, i, done, left, rest, later) && i <= |q| && dirs <= old(dirs)
        invariant Swept(old(order), old(dirs), order, dirs)
        invariant DropLive(q, pendingOffset) == left + DropLive(q[i..], count)
        decreases |q| - i
      {
        var more, f;
        more, f, rest, later := Visit(rest, later, q, i, done, left);
        if !more {
          break;
        }
        HereEntry(q, i, done, left, f, rest, later);
        if f.held {
          Pass(q, i, done, left, f, rest, later);
          AppendOne(left, q[i], DropLive(q[i + 1..], count));
          done, left := done + [f], left + [q[i]];
        } else {
          ghost var order1, dirs1 := order, dirs;
          Delete(f, rest, later, q, i, done, left);
          SweptTwice(old(order), old(dirs), order1, dirs1, order, dirs);
          count := count - 1;
        }
        i := i + 1;
      }
      WalkedQueue(q, i, done, left, rest, later);
    }

    /** `get_pending_messages`. */
    method GetPendingMessages(max: Option<nat>) returns (messages: seq<Message>)
      requires Valid()
      modifies this`files, this`order
      ensures Valid() && (Model(), messages) == PendingMessages(old(Model()), max)
    {
      hide Walking, Here, Moving, MovingAt, DiskOk, Entries, Walk, Joined;
      ghost var s, q, i, done, left := Model(), Queue(), 0, [], [];
      var later := StartVisit();
      var rest := [];
      var index := 0;
      messages := [];
      WholeSuffix(q);
      JoinedNothing(Walk(s, q, pendingOffset, max));
      while true
        invariant Walking(q, i, done, left, rest, later) && i <= |q|
        invariant max.Some? ==> |messages| <= max.value
        invariant Walk(s, q, pendingOffset, max)
               == Joined(messages, left, Walk(s, q[i..], ToSkip(pendingOffset, index), Room(max, messages)))
        decreases |q| - i
      {
        var more, f;
        more, f, rest, later := Visit(rest, later, q, i, done, left);
        if !more {
          WalkStops(s, q, i, ToSkip(pendingOffset, index), Room(max, messages));
          break;
        }
        HereEntry(q, i, done, left, f, rest, later);
        if f.held {
          Pass(q, i, done, left, f, rest, later);
          WalkPasses(s, q, i, ToSkip(pendingOffset, index), Room(max, messages), messages, left);
          done, left := done + [f], left + [q[i]];
        } else if index < pendingOffset {
          Pass(q, i, done, left, f, rest, later);
          WalkPasses(s, q, i, ToSkip(pendingOffset, index), Room(max, messages), messages, left);
          index := index + 1;
          done, left := done + [f], left + [q[i]];
        } else {
          if max.Some? && |messages| >= max.value {
            HereWalking(q, i, done, left, f, rest, later);
            WalkStops(s, q, i, 0, Some(0));
            rest := [f] + rest;
            break;
          }
          var message := files[f];
          index := index + 1;
          if message.kind !in acceptedTypes || message.api > serverApi {
            WalkFlags(s, q, i, Room(max, messages), messages, left);
            var g := Hold(f, rest, later, q, i, done, left);
            done, left := done + [g], left + [Entry(q[i].msg, true)];
          } else {
            Pass(q, i, done, left, f, rest, later);
            WalkTakes(s, q, i, max, messages, left);
            messages := messages + [message];
            done, left := done + [f], left + [q[i]];
          }
        }
        i := i + 1;
      }
      WalkedQueue(q, i, done, left, rest, later);
      JoinedRest(messages, left, q[i..]);
    }

    // -------------------------------------------------------------------------------
    // Reprocessing held messages
    // -------------------------------------------------------------------------------

    /** In the middle of `_reprocess_holding` over what was the queue `q`: the first `i` entries
        have left the files `done` and the files `freed` at the end of the queue; `old_` are the
        files not visited yet. The walk may still meet some freed files again, `again`. */
    ghost predicate Moving(q: seq<Entry>, i: nat, done: seq<File>, left: seq<Entry>, old_: seq<File>,
                           freed: seq<File>, released: seq<Entry>, again: seq<File>, rest: seq<File>, later: seq<nat>)
      reads this
    {
      && Valid() && WalkerOk(rest, later, dirs)
      && order == done + old_ + freed && Remaining(order, rest, later) == old_ + again
      && |done| == |left| && i <= |q| && |old_| == |q| - i && |freed| == |released|
      && Queue() == left + q[i..] + released
      && (forall f :: f in again ==> f in freed)
      && (forall j :: 0 <= j < |released| ==> !released[j].held && released[j].msg.kind in acceptedTypes)
    }

    /** The walk of `_reprocess_holding` has reached `f`, the file of entry `i`. */
    ghost predicate MovingAt(q: seq<Entry>, i: nat, done: seq<File>, left: seq<Entry>, f: File, old_: seq<File>,
                             freed: seq<File>, released: seq<Entry>, again: seq<File>, rest: seq<File>, later: seq<nat>)
      reads this
    {
      && Valid() && WalkerOk(rest, later, dirs) && (forall d :: d in later ==> f.dir < d)
      && order == done + [f] + (old_ + freed) && Remaining(order, rest, later) == old_ + again
      && |done| == |left| && i < |q| && |old_| == |q| - i - 1 && |freed| == |released|
      && Queue() == left + q[i..] + released
      && f in files && q[i] == Entry(files[f], f.held)
      && (forall g :: g in again ==> g in freed)
      && (forall j :: 0 <= j < |released| ==> !released[j].held && released[j].msg.kind in acceptedTypes)
    }

    /** `next` on the walk of `_reprocess_holding`. What it meets after the old files are freed
        ones, live and accepted. */
    method VisitMoving(rest: seq<File>, later: seq<nat>, ghost q: seq<Entry>, ghost i: nat, ghost done: seq<File>,
                       ghost left: seq<Entry>, ghost old_: seq<File>, ghost freed: seq<File>,
                       ghost released: seq<Entry>, ghost again: seq<File>)
      returns (more: bool, f: File, rest': seq<File>, later': seq<nat>)
      requires Moving(q, i, done, left, old_, freed, released, again, rest, later)
      ensures !more ==> i == |q| && Moving(q, i, done, left, [], freed, released, [], rest', later')
      ensures more && i < |q| ==>
                old_ != [] && MovingAt(q, i, done, left, f, old_[1..], freed, released, again, rest', later')
      ensures more && i == |q| ==>
                && f in files && !f.held && files[f].kind in acceptedTypes
                && again != [] && Moving(q, i, done, left, old_, freed, released, again[1..], rest', later')
    {
      more, f, rest', later' := Advance(rest, later);
      if !more {
        InDirsNone(order, []);
      } else if i < |q| {
        assert old_ == [f] + old_[1..] by {
          assert (old_ + again)[0] == old_[0];
        }
        assert old_ + again == [f] + (old_[1..] + again);
        SameTail(f, Remaining(order, rest', later'), old_[1..] + again);
        assert order == done + [f] + (old_[1..] + freed);
        assert order[|done|] == f && f in order;
        assert Queue()[|done|] == Entry(files[f], f.held);
      } else {
        assert old_ == [] && old_ + again == again && again == [f] + again[1..];
        SameTail(f, Remaining(order, rest', later'), again[1..]);
        assert f in again;
        var k :| 0 <= k < |freed| && freed[k] == f;
        assert order[|done| + k] == f && f in order;
        assert Queue()[|done| + k] == Entry(files[f], f.held) == released[k];
        assert old_ + again[1..] == again[1..];
      }
    }

    lemma MovePass(q: seq<Entry>, i: nat, done: seq<File>, left: seq<Entry>, f: File, old_: seq<File>,
                   freed: seq<File>, released: seq<Entry>, again: seq<File>, rest: seq<File>, later: seq<nat>)
      requires MovingAt(q, i, done, left, f, old_, freed, released, again, rest, later)
      ensures Moving(q, i + 1, done + [f], left + [q[i]], old_, freed, released, again, rest, later)
    {
      assert done + [f] + (old_ + freed) == (done + [f]) + old_ + freed;
      assert left + q[i..] == (left + [q[i]]) + q[i + 1..];
    }

    /** Holds a live file of unaccepted type. */
    method MoveHold(f: File, rest: seq<File>, later: seq<nat>, ghost q: seq<Entry>, ghost i: nat, ghost done: seq<File>,
                    ghost left: seq<Entry>, ghost old_: seq<File>, ghost freed: seq<File>,
                    ghost released: seq<Entry>, ghost again: seq<File>)
      returns (g: File)
      requires MovingAt(q, i, done, left, f, old_, freed, released, again, rest, later)
      modifies this`files, this`order
      ensures Moving(q, i + 1, done + [g], left + [Entry(q[i].msg, true)], old_, freed, released, again, rest, later)
    {
      ghost var before := Queue();
      InDirsEdit(done, f, old_ + freed, File(f.dir, f.num, true), later);
      g := SetHeld(f, true, done, old_ + freed);
      assert done + [g] + (old_ + freed) == (done + [g]) + old_ + freed;
      assert before[|left|] == q[i];
      UpdateMiddle(left, q, i, released, Entry(q[i].msg, true));
    }

    /** Moves a held file whose type is accepted again to the end of the queue. */
    method MoveRelease(f: File, rest: seq<File>, later: seq<nat>, ghost q: seq<Entry>, ghost i: nat,
                       ghost done: seq<File>,
                       ghost left: seq<Entry>, ghost old_: seq<File>, ghost freed: seq<File>,
                       ghost released: seq<Entry>, ghost again: seq<File>)
      returns (g: File, ghost again': seq<File>)
      requires MovingAt(q, i, done, left, f, old_, freed, released, again, rest, later)
      requires files[f].kind in acceptedTypes
      modifies this`files, this`order, this`dirs
      ensures |again'| <= |again| + 1
      ensures Moving(q, i + 1, done, left, old_, freed + [g], released + [Entry(q[i].msg, false)], again', rest, later)
    {
      hide DiskOk, Entries, Lists, Increasing, InDirs;
      ghost var before, was := Queue(), order;
      g := NextMessageFilename();
      InDirsRemove(done, f, old_ + freed, later);
      InDirsConcat(done + (old_ + freed), [g], later);
      again' := again + InDirs([g], later);
      InDirsOne(g, later);
      MoveToEnd(f, g, done, old_ + freed);
      assert order == done + old_ + (freed + [g]);
      assert old_ + again + InDirs([g], later) == old_ + again';
      assert Remaining(order, rest, later) == old_ + again' by {
        assert rest + (InDirs(was, later) + InDirs([g], later)) == (rest + InDirs(was, later)) + InDirs([g], later);
      }
      assert before[|left|] == q[i];
      DropMiddle(left, q, i, released, Entry(q[i].msg, false));
      forall h | h in again' ensures h in freed + [g] {
        InDirsMembers([g], later, h);
      }
    }

    /** `_reprocess_holding`. */
    method ReprocessHolding()
      requires Valid()
      modifies this`files, this`order, this`dirs
      ensures Valid()
      ensures Model() == old(Model()).(queue := Kept(old(Model()), old(Queue()), pendingOffset)
                                               + Released(old(Model()), old(Queue())))
    {
      hide Moving, MovingAt, Walking, Here, DiskOk, Entries, Kept, Released;
      ghost var s, q, i := Model(), Queue(), 0;
      ghost var done, left, old_, freed, released, again := [], [], order, [], [], [];
      var later := StartMoving();
      var rest := [];
      var offset := 0;
      WholeSuffix(q);
      while true
        invariant Moving(q, i, done, left, old_, freed, released, again, rest, later) && i <= |q|
        invariant Kept(s, q, pendingOffset) == left + Kept(s, q[i..], ToSkip(pendingOffset, offset))
        invariant Released(s, q) == released + Released(s, q[i..])
        decreases 2 * (|q| - i) + |again|
      {
        var more, f;
        more, f, rest, later := VisitMoving(rest, later, q, i, done, left, old_, freed, released, again);
        if !more {
          break;
        }
        ghost var next := i < |q|;
        if next {
          old_ := old_[1..];
          MovingEntry(q, i, done, left, f, old_, freed, released, again, rest, later);
          KeptStep(s, q, i, ToSkip(pendingOffset, offset), left);
          ReleasedStep(s, q, i, released);
        }
        var message := files[f];
        var accepted := message.kind in acceptedTypes;
        if f.held {
          if accepted {
            var g;
            g, again := MoveRelease(f, rest, later, q, i, done, left, old_, freed, released, again);
            freed, released := freed + [g], released + [Entry(q[i].msg, false)];
          } else {
            MovePass(q, i, done, left, f, old_, freed, released, again, rest, later);
            done, left := done + [f], left + [q[i]];
          }
          i := i + 1;
        } else {
          if !accepted && offset >= pendingOffset {
            var g := MoveHold(f, rest, later, q, i, done, left, old_, freed, released, again);
            done, left, i := done + [g], left + [Entry(q[i].msg, true)], i + 1;
          } else if next {
            MovePass(q, i, done, left, f, old_, freed, released, again, rest, later);
            done, left, i := done + [f], left + [q[i]], i + 1;
          } else {
            assert q[i..] == [];
            NothingKept(s, ToSkip(pendingOffset, offset), left, released);
            NothingKept(s, ToSkip(pendingOffset, offset + 1), left, released);
            again := again[1..];
          }
          offset := offset + 1;
        }
      }
      MovedQueue(q, done, left, freed, released, rest, later);
      NothingKept(s, ToSkip(pendingOffset, offset), left, released);
    }

    method StartMoving() returns (later: seq<nat>)
      requires Valid()
      ensures Moving(Queue(), 0, [], [], order, [], [], [], [], later)
    {
      later := StartWalk();
      assert [] + order + [] == order && order + [] == order;
      assert [] + Queue()[0..] + [] == Queue();
      assert |Queue()| == |order|;
    }

    lemma MovingEntry(q: seq<Entry>, i: nat, done: seq<File>, left: seq<Entry>, f: File, old_: seq<File>,
                      freed: seq<File>, released: seq<Entry>, again: seq<File>, rest: seq<File>, later: seq<nat>)
      requires MovingAt(q, i, done, left, f, old_, freed, released, again, rest, later)
      ensures i < |q| && f in files && q[i] == Entry(files[f], f.held)
      ensures q[i..] != [] && q[i..][0] == q[i] && q[i..][1..] == q[i + 1..]
    {
    }

    lemma MovedQueue(q: seq<Entry>, done: seq<File>, left: seq<Entry>, freed: seq<File>, released: seq<Entry>,
                     rest: seq<File>, later: seq<nat>)
      requires Moving(q, |q|, done, left, [], freed, released, [], rest, later)
      ensures Valid() && Queue() == left + released && q[|q|..] == []
    {
      assert left + q[|q|..] == left;
    }

    /** `set_accepted_types`. */
    method SetTypes(types: set<string>)
      requires Valid()
      modifies this`files, this`order, this`dirs, this`acceptedTypes
      ensures Valid() && Model() == SetAcceptedTypes(old(Model()), types)
    {
      acceptedTypes := types;
      ReprocessHolding();
    }

    // -------------------------------------------------------------------------------
    // Limits, and adding
    // -------------------------------------------------------------------------------

    /** `shutil.rmtree` of the oldest directory. */
    method RemoveTree(dir: nat) returns (ghost dropped: nat)
      requires Valid() && dir in dirs && forall d :: d in dirs ==> dir <= d
      modifies this`files, this`order, this`dirs
      ensures Valid() && dirs == old(dirs) - {dir}
      ensures dropped <= |old(Queue())| && Queue() == old(Queue())[dropped..]
      ensures SameDirs(old(order), order, dirs)
    {
      assert |Queue()| == |order|;
      dropped := |InDirs(order, [dir])|;
      OldestFirst(order, dir);
      OthersStay(order, dropped, dir, dirs - {dir});
      TakeDisk(order, files, dirs, directorySize, dir);
      files := map f | f in files && f.dir != dir :: files[f];
      order := order[dropped..];
      dirs := dirs - {dir};
    }

    /** `delete_all_messages`. The directories stay. */
    method DeleteAllMessages()
      requires Valid()
      modifies this`files, this`order, this`pendingOffset
      ensures Valid() && Model() == old(Model()).(queue := [], offset := 0)
    {
      hide Walking, Here, DiskOk, Entries;
      ghost var q, i := Queue(), 0;
      pendingOffset := 0;
      var later := StartVisit();
      var rest := [];
      while true
        invariant Walking(q, i, [], [], rest, later) && i <= |q| && pendingOffset == 0
        decreases |q| - i
      {
        var more, f;
        more, f, rest, later := Visit(rest, later, q, i, [], []);
        if !more {
          break;
        }
        HereEntry(q, i, [], [], f, rest, later);
        DeleteFile(f, rest, later, q, i, [], []);
        i := i + 1;
      }
      WalkedQueue(q, i, [], [], rest, later);
    }

    /** `delete_messages_over_limit`: the oldest directories go until at most `maxDirs` are left;
        if the rest is still too large, everything goes. The pending offset is not adjusted. */
    method DeleteMessagesOverLimit(tooLarge: bool) returns (ghost dropped: nat)
      requires Valid()
      modifies this`files, this`order, this`dirs, this`pendingOffset
      ensures Valid() && |dirs| <= maxDirs && dirs <= old(dirs) && dropped <= |old(Queue())|
      ensures Model() == old(Model()).(queue := old(Queue())[dropped..],
                                       offset := if tooLarge then 0 else old(pendingOffset))
      ensures |old(dirs)| <= maxDirs && !tooLarge ==> dropped == 0 && dirs == old(dirs)
      ensures |dirs| == if |old(dirs)| <= maxDirs then |old(dirs)| else maxDirs
      ensures Newer(dirs, old(dirs)) && (!tooLarge ==> SameDirs(old(order), order, dirs))
      ensures tooLarge ==> Queue() == [] && dropped == |old(Queue())|
    {
      hide DiskOk, Entries, SameDirs, Newer;
      var curDirs := SortedDirs();
      var numDirsToDelete := if |curDirs| > maxDirs then |curDirs| - maxDirs else 0;
      dropped := TrimDirs(curDirs, numDirsToDelete);
      if tooLarge {
        DeleteAllMessages();
        dropped := |old(Queue())|;
        assert old(Queue())[dropped..] == [];
      }
    }

    /** The loop of `delete_messages_over_limit`. */
    method TrimDirs(curDirs: seq<nat>, n: nat) returns (ghost dropped: nat)
      requires Valid() && Rising(curDirs) && n <= |curDirs| == |dirs|
      requires forall d :: d in curDirs <==> d in dirs
      modifies this`files, this`order, this`dirs
      ensures Valid() && |dirs| == |curDirs| - n && dirs <= old(dirs)
      ensures dropped <= |old(Queue())| && Queue() == old(Queue())[dropped..]
      ensures n == 0 ==> dropped == 0 && dirs == old(dirs)
      ensures SameDirs(old(order), order, dirs) && Newer(dirs, old(dirs))
    {
      hide DiskOk, Entries, Rising, Sorted, SameDirs, Newer;
      TrimNothing(order, dirs);
      ghost var q := Queue();
      dropped := 0;
      FirstSorted(curDirs, dirs);
      for k := 0 to n
        invariant Valid() && |dirs| == |curDirs| - k && dirs <= old(dirs) && Sorted(curDirs, k, dirs)
        invariant dropped <= |q| && Queue() == q[dropped..]
        invariant k == 0 ==> dropped == 0 && dirs == old(dirs)
        invariant SameDirs(old(order), order, dirs) && Newer(dirs, old(dirs))
      {
        ghost var order1, dirs1 := order, dirs;
        dropped := TrimNext(curDirs, k, q, dropped);
        TrimAgain(old(order), order1, order, old(dirs), dirs1, dirs);
      }
    }

    method TrimNext(curDirs: seq<nat>, k: nat, ghost q: seq<Entry>, ghost dropped: nat)
      returns (ghost dropped': nat)
      requires Valid() && Sorted(curDirs, k, dirs) && k < |curDirs| && dropped <= |q| && Queue() == q[dropped..]
      modifies this`files, this`order, this`dirs
      ensures Valid() && Sorted(curDirs, k + 1, dirs) && |dirs| == |old(dirs)| - 1 && dirs <= old(dirs)
      ensures dropped' <= |q| && Queue() == q[dropped'..]
      ensures SameDirs(old(order), order, dirs) && Newer(dirs, old(dirs))
    {
      hide DiskOk, Entries, Sorted, SameDirs;
      NextSorted(curDirs, k, dirs);
      ghost var more := RemoveTree(curDirs[k]);
      DropTwice(q, dropped, more);
      dropped' := dropped + more;
    }

    /** `add`. `id` is the number the file system gives the new file, `tooLarge` the outcome of
        measuring the stored messages. */
    method AddMessage(id: nat, kind: string, api: Option<int>, tooLarge: bool)
      returns (messageId: Option<nat>, ghost how: Adding)
      requires Valid()
      modifies this`files, this`order, this`dirs, this`pendingOffset
      ensures Valid() && messageId == if blackhole then None else Some(id)
      ensures Model() == AddAs(old(Model()), how, Message(id, kind, if api.Some? then api.value else serverApi))
      ensures if blackhole then how == Rejected && dirs == old(dirs)
              else
                && how.Queued? && how.cleared == tooLarge && how.dropped <= |old(Queue())| && |dirs| <= maxDirs + 1
                && (|old(dirs)| <= maxDirs && !tooLarge ==> how == UNTRIMMED)
                && (tooLarge ==> how.dropped == |old(Queue())|)
      ensures forall d :: d in dirs && d !in old(dirs) ==>
                |dirs| == 1 || (d >= 1 && d - 1 in dirs && |InDirs(order, [d - 1])| == directorySize)
      ensures !tooLarge && Packed(old(order), old(dirs), directorySize) ==>
                && Packed(order, dirs, directorySize)
                && (!blackhole && |old(order)| < maxDirs * directorySize ==> how == UNTRIMMED)
    {
      hide DiskOk, Entries, Packed, SameDirs, Newer;
      if Packed(order, dirs, directorySize) {
        PackedBound(order, files, dirs, directorySize);
        FewDirs(|order|, |dirs|, maxDirs, directorySize);
      }
      if blackhole {
        return None, Rejected;
      }
      ghost var order0, dirs0 := order, dirs;
      ghost var dropped := DeleteMessagesOverLimit(tooLarge);
      how := Queued(dropped, tooLarge);
      if !tooLarge && Packed(order0, dirs0, directorySize) {
        StaysPacked(order0, order, dirs0, dirs, directorySize);
      }
      var message := Message(id, kind, if api.Some? then api.value else serverApi);
      StoreFile(message);
      messageId := Some(message.id);
    }

    /** The writing of a message's file, and its flag. */
    method StoreFile(message: Message)
      requires Valid()
      modifies this`files, this`order, this`dirs
      ensures Valid() && |dirs| <= |old(dirs)| + 1 && Model() == SM.Add(old(Model()), message)
      ensures forall d :: d in dirs && d !in old(dirs) ==>
                |dirs| == 1 || (d >= 1 && d - 1 in dirs && |InDirs(order, [d - 1])| == directorySize)
      ensures Packed(old(order), old(dirs), directorySize) ==> Packed(order, dirs, directorySize)
    {
      hide Packed, DiskOk, Entries, InDirs;
      ghost var before, dirs0 := Queue(), dirs;
      var filename := NextMessageFilename();
      assert |dirs| <= |old(dirs)| + 1;
      ghost var was, name := order, filename;
      AddedElsewhere(was, name);
      if Packed(was, dirs0, directorySize) {
        AddsPacked(was, name, dirs0, directorySize);
      }
      Create(filename, message);
      if message.kind !in acceptedTypes {
        assert order == was + [filename] + [];
        filename := SetHeld(filename, true, was, []);
        assert (before + [Entry(message, false)])[|was| := Entry(message, true)] == before + [Entry(message, true)];
        HeldElsewhere(was, filename, dirs, directorySize);
        assert was + [filename] + [] == was + [filename];
      }
      assert order == was + [name.(held := filename.held)];
      if name.dir !in dirs0 && dirs0 == {} {
        assert dirs == {name.dir};
      }
    }

    // -------------------------------------------------------------------------------
    // Long failures
    // -------------------------------------------------------------------------------

    /** `record_success`. */
    method RecordSuccess()
      requires Valid()
      modifies this`firstFailureTime, this`blackhole
      ensures Valid() && firstFailureTime == None && !blackhole
    {
      firstFailureTime, blackhole := None, false;
    }

    /** `record_failure`: after a week of failures one resynchronize message is queued, and from
        then on every message is rejected until an exchange succeeds. */
    method RecordFailure(timestamp: int, id: nat, tooLarge: bool) returns (ghost how: Adding)
      requires Valid()
      modifies this`files, this`order, this`dirs, this`pendingOffset, this`firstFailureTime, this`blackhole
      ensures Valid()
      ensures firstFailureTime
           == Some(if old(firstFailureTime).Some? then old(firstFailureTime).value else timestamp)
      ensures var late := timestamp - firstFailureTime.value > 7 * 24 * 60 * 60;
              && blackhole == (old(blackhole) || late)
              && how.Rejected? == (old(blackhole) || !late)
              && Model() == AddAs(old(Model()), how, Message(id, "resynchronize", serverApi))
      ensures how.Queued? && |old(dirs)| <= maxDirs && !tooLarge ==> how == UNTRIMMED
    {
      how := Rejected;
      if firstFailureTime == None {
        firstFailureTime := Some(timestamp);
      }
      if !blackhole && timestamp - firstFailureTime.value > WEEK {
        var messageId;
        messageId, how := AddMessage(id, RESYNCHRONIZE, None, tooLarge);
        blackhole := true;
      }
    }
  }

  lemma DropTwice(q: seq<Entry>, m: nat, n: nat)
    requires m <= |q| && n <= |q| - m
    ensures q[m..][n..] == q[m + n..]
  {
  }

  lemma SameTail(f: File, a: seq<File>, b: seq<File>)
    requires [f] + a == [f] + b
    ensures a == b
  {
    assert ([f] + a)[1..] == a && ([f] + b)[1..] == b;
  }

  /** What becomes of entry `i` in place. */
  lemma KeptStep(s: Store, q: seq<Entry>, i: nat, skip: nat, left: seq<Entry>)
    requires i < |q|
    ensures left + Kept(s, q[i..], skip)
         == (if q[i].held && s.Accepts(q[i].msg) then left
             else if q[i].held || skip > 0 then left + [q[i]]
             else left + [Entry(q[i].msg, !s.Accepts(q[i].msg))])
            + Kept(s, q[i + 1..], if q[i].held || skip == 0 then skip else skip - 1)
  {
    var e, rest := q[i], Kept(s, q[i + 1..], if q[i].held || skip == 0 then skip else skip - 1);
    assert q[i..][0] == e && q[i..][1..] == q[i + 1..];
    AppendOne(left, e, rest);
    AppendOne(left, Entry(e.msg, !s.Accepts(e.msg)), rest);
  }

  lemma ReleasedStep(s: Store, q: seq<Entry>, i: nat, released: seq<Entry>)
    requires i < |q|
    ensures released + Released(s, q[i..])
         == (if q[i].held && s.Accepts(q[i].msg) then released + [Entry(q[i].msg, false)] else released)
            + Released(s, q[i + 1..])
  {
    assert q[i..][0] == q[i] && q[i..][1..] == q[i + 1..];
    AppendOne(released, Entry(q[i].msg, false), Released(s, q[i + 1..]));
  }

  lemma NothingKept(s: Store, skip: nat, left: seq<Entry>, released: seq<Entry>)
    ensures left + Kept(s, [], skip) == left && released + Released(s, []) == released
  {
  }

  lemma UpdateMiddle(left: seq<Entry>, q: seq<Entry>, i: nat, released: seq<Entry>, e: Entry)
    requires i < |q|
    ensures (left + q[i..] + released)[|left| := e] == (left + [e]) + q[i + 1..] + released
  {
  }

  lemma DropMiddle(left: seq<Entry>, q: seq<Entry>, i: nat, released: seq<Entry>, e: Entry)
    requires i < |q|
    ensures var s := left + q[i..] + released;
            s[..|left|] + s[|left| + 1..] + [e] == left + q[i + 1..] + (released + [e])
  {
  }

  lemma WholeSuffix(q: seq<Entry>)
    ensures q[0..] == q && [] + q == q
  {
  }

  lemma AppendOne(left: seq<Entry>, e: Entry, more: seq<Entry>)
    ensures (left + [e]) + more == left + ([e] + more)
  {
  }

  /** What a walk has collected and left so far, with what is to come. */
  ghost function Joined(messages: seq<Message>, left: seq<Entry>, w: Walked): Walked {
    Walked(messages + w.messages, left + w.queue)
  }

  lemma JoinedNothing(w: Walked)
    ensures Joined([], [], w) == w
  {
    assert [] + w.messages == w.messages && [] + w.queue == w.queue;
  }

  lemma JoinedEntry(messages: seq<Message>, left: seq<Entry>, e: Entry, w: Walked)
    ensures Joined(messages, left, Walked(w.messages, [e] + w.queue)) == Joined(messages, left + [e], w)
  {
    AppendOne(left, e, w.queue);
  }

  lemma JoinedMessage(messages: seq<Message>, left: seq<Entry>, e: Entry, w: Walked)
    ensures Joined(messages, left, Walked([e.msg] + w.messages, [e] + w.queue))
         == Joined(messages + [e.msg], left + [e], w)
  {
    AppendOne(left, e, w.queue);
    assert messages + ([e.msg] + w.messages) == (messages + [e.msg]) + w.messages;
  }

  lemma JoinedRest(messages: seq<Message>, left: seq<Entry>, q: seq<Entry>)
    ensures Joined(messages, left, Walked([], q)) == Walked(messages, left + q)
  {
    assert messages + [] == messages;
  }

  /** A walk stops at the end, and before a pending message when it has enough. */
  lemma WalkStops(s: Store, q: seq<Entry>, i: nat, skip: nat, room: Option<nat>)
    requires i == |q| || (i < |q| && !q[i].held && skip == 0 && room == Some(0))
    ensures Walk(s, q[i..], skip, room) == Walked([], q[i..])
  {
  }

  /** A walk passes over held messages and those sent before. */
  lemma WalkPasses(s: Store, q: seq<Entry>, i: nat, skip: nat, room: Option<nat>, messages: seq<Message>,
                   left: seq<Entry>)
    requires i < |q| && (q[i].held || skip > 0)
    ensures Joined(messages, left, Walk(s, q[i..], skip, room))
         == Joined(messages, left + [q[i]], Walk(s, q[i + 1..], if q[i].held then skip else skip - 1, room))
  {
    assert q[i..][0] == q[i] && q[i..][1..] == q[i + 1..];
    JoinedEntry(messages, left, q[i], Walk(s, q[i + 1..], if q[i].held then skip else skip - 1, room));
  }

  /** A walk flags a pending message that cannot be sent. */
  lemma WalkFlags(s: Store, q: seq<Entry>, i: nat, room: Option<nat>, messages: seq<Message>, left: seq<Entry>)
    requires i < |q| && !q[i].held && room != Some(0) && !s.Sendable(q[i].msg)
    ensures Joined(messages, left, Walk(s, q[i..], 0, room))
         == Joined(messages, left + [Entry(q[i].msg, true)], Walk(s, q[i + 1..], 0, room))
  {
    assert q[i..][0] == q[i] && q[i..][1..] == q[i + 1..];
    JoinedEntry(messages, left, Entry(q[i].msg, true), Walk(s, q[i + 1..], 0, room));
  }

  /** A walk collects a pending message that can. */
  lemma WalkTakes(s: Store, q: seq<Entry>, i: nat, max: Option<nat>, messages: seq<Message>, left: seq<Entry>)
    requires i < |q| && !q[i].held && s.Sendable(q[i].msg) && (max.Some? ==> |messages| < max.value)
    ensures Joined(messages, left, Walk(s, q[i..], 0, Room(max, messages)))
         == Joined(messages + [q[i].msg], left + [q[i]], Walk(s, q[i + 1..], 0, Room(max, messages + [q[i].msg])))
  {
    assert q[i..][0] == q[i] && q[i..][1..] == q[i + 1..];
    JoinedMessage(messages, left, q[i], Walk(s, q[i + 1..], 0, Room(max, messages + [q[i].msg])));
  }

  function ToSkip(offset: nat, index: nat): nat {
    if index <= offset then offset - index else 0
  }

  /** How many more messages may be collected. */
  ghost function Room(max: Option<nat>, messages: seq<Message>): Option<nat>
    requires max.Some? ==> |messages| <= max.value
  {
    if max.Some? then Some(max.value - |messages|) else None
  }

  /** Taking the first remaining file until none is left. */
  method SortFiles(fs: set<File>, ghost all: seq<File>) returns (r: seq<File>)
    requires Lists(all, fs)
    ensures r == all
  {
    var rest := fs;
    r := [];
    while rest != {}
      invariant |r| <= |all| && r == all[..|r|]
      invariant Lists(all[|r|..], rest)
      decreases rest
    {
      ghost var todo := all[|r|..];
      FirstOfList(todo, rest);
      TailLists(todo, rest);
      var f :| f in rest && LeastFile(rest, f);
      LeastUnique(rest, f, todo[0]);
      assert todo[1..] == all[|r| + 1..];
      r := r + [f];
      rest := rest - {f};
    }
    HeadIn(all[|r|..]);
  }

  predicate LeastFile(fs: set<File>, f: File) {
    f in fs && forall g :: g in fs ==> g == f || Before(f, g)
  }

  lemma LeastUnique(fs: set<File>, f: File, g: File)
    requires LeastFile(fs, f) && LeastFile(fs, g)
    ensures f == g
  {
    assert f == g || (Before(f, g) && Before(g, f));
  }

  lemma FirstOfList(s: seq<File>, fs: set<File>)
    requires Lists(s, fs) && fs != {}
    ensures s != [] && LeastFile(fs, s[0])
  {
    var f :| f in fs;
    assert f in s;
    forall g | g in fs ensures g == s[0] || Before(s[0], g) {
      var i :| 0 <= i < |s| && s[i] == g;
    }
  }

  lemma HeadIn(s: seq<File>)
    ensures s == [] || s[0] in s
  {
  }

  ghost function Least(s: set<nat>): (d: nat)
    requires s != {}
    ensures d in s && forall e :: e in s ==> d <= e
    decreases s
  {
    var x :| x in s;
    if s == {x} then x
    else
      assert s - {x} != {} by {
        assert s == {x} + (s - {x});
      }
      var y := Least(s - {x});
      assert forall e :: e in s ==> e == x || e in s - {x};
      if x < y then x else y
  }

  lemma RisingSnoc(r: seq<nat>, d: nat)
    requires Rising(r) && forall c :: c in r ==> c < d
    ensures Rising(r + [d])
  {
    forall i, j | 0 <= i < j < |r + [d]| ensures (r + [d])[i] < (r + [d])[j] {
      assert i < |r| ==> r[i] in r;
    }
  }

  lemma EditLists(a: seq<File>, f: File, b: seq<File>, g: File, fs: set<File>)
    requires Lists(a + [f] + b, fs) && g.dir == f.dir && g.num == f.num
    ensures Lists(a + [g] + b, (fs - {f}) + {g})
  {
    var s, t := a + [f] + b, a + [g] + b;
    assert s[|a|] == f && t[|a|] == g;
    assert forall i :: 0 <= i < |s| && i != |a| ==> t[i] == s[i];
    RemoveLists(a, f, b, fs);
    forall h ensures h in t <==> h in (fs - {f}) + {g} {
      assert h in t <==> h in a + b || h == g;
    }
  }

  lemma RemoveLists(a: seq<File>, f: File, b: seq<File>, fs: set<File>)
    requires Lists(a + [f] + b, fs)
    ensures Lists(a + b, fs - {f})
  {
    var s, t := a + [f] + b, a + b;
    assert s[|a|] == f;
    assert forall i :: 0 <= i < |t| ==> t[i] == s[if i < |a| then i else i + 1];
    forall h ensures h in t <==> h in fs - {f} {
      assert h in s <==> h in t || h == f;
      if h in t {
        var i :| 0 <= i < |t| && t[i] == h;
        assert if i < |a| then Before(s[i], f) else Before(f, s[i + 1]);
      }
    }
  }

  lemma AppendLists(s: seq<File>, g: File, fs: set<File>)
    requires Lists(s, fs) && forall h :: h in s ==> Before(h, g)
    ensures Lists(s + [g], fs + {g})
  {
    var t := s + [g];
    forall i, j | 0 <= i < j < |t| ensures Before(t[i], t[j]) {
      assert i < |s| && s[i] in s;
    }
  }

  lemma InDirsEdit(a: seq<File>, f: File, b: seq<File>, g: File, ds: seq<nat>)
    requires f.dir == g.dir
    ensures |InDirs(a + [g] + b, ds)| == |InDirs(a + [f] + b, ds)|
    ensures f.dir !in ds ==> InDirs(a + [g] + b, ds) == InDirs(a + [f] + b, ds)
  {
    InDirsConcat(a + [g], b, ds);
    InDirsConcat(a, [g], ds);
    InDirsConcat(a + [f], b, ds);
    InDirsConcat(a, [f], ds);
  }

  lemma InDirsOne(f: File, ds: seq<nat>)
    ensures InDirs([f], ds) == if f.dir in ds then [f] else []
  {
    assert [f][1..] == [];
  }

  lemma InDirsRemove(a: seq<File>, f: File, b: seq<File>, ds: seq<nat>)
    ensures |InDirs(a + b, ds)| <= |InDirs(a + [f] + b, ds)|
    ensures f.dir !in ds ==> InDirs(a + b, ds) == InDirs(a + [f] + b, ds)
  {
    InDirsConcat(a, b, ds);
    InDirsConcat(a + [f], b, ds);
    InDirsConcat(a, [f], ds);
  }

  /** The directories removed are those that had files and have none left; files only go. */
  ghost predicate Swept(order0: seq<File>, dirs0: set<nat>, order1: seq<File>, dirs1: set<nat>) {
    && dirs1 <= dirs0
    && (forall d :: InDirs(order0, [d]) == [] ==> InDirs(order1, [d]) == [])
    && forall d :: d in dirs0 ==> (d !in dirs1 <==> InDirs(order1, [d]) == [] && InDirs(order0, [d]) != [])
  }

  lemma SweptNone(order: seq<File>, dirs: set<nat>)
    ensures Swept(order, dirs, order, dirs)
  {
  }

  lemma SweptTwice(order0: seq<File>, dirs0: set<nat>, order1: seq<File>, dirs1: set<nat>, order2: seq<File>,
                   dirs2: set<nat>)
    requires Swept(order0, dirs0, order1, dirs1) && Swept(order1, dirs1, order2, dirs2)
    ensures Swept(order0, dirs0, order2, dirs2)
  {
  }

  lemma SweptOne(a: seq<File>, f: File, b: seq<File>, dirs: set<nat>)
    requires f.dir in dirs
    ensures Swept(a + [f] + b, dirs, a + b,
                  if exists g :: g in a + b && g.dir == f.dir then dirs else dirs - {f.dir})
  {
    forall d: nat
      ensures InDirs(a + [f] + b, [d]) == [] ==> InDirs(a + b, [d]) == []
      ensures d != f.dir ==> InDirs(a + b, [d]) == InDirs(a + [f] + b, [d])
    {
      InDirsRemove(a, f, b, [d]);
    }
    InDirsMembers(a + [f] + b, [f.dir], f);
    assert f in a + [f] + b;
    if g :| g in a + b && g.dir == f.dir {
      InDirsMembers(a + b, [f.dir], g);
    } else {
      InDirsNone(a + b, [f.dir]);
    }
  }

  /** The directories that stay have the files they had. */
  ghost predicate SameDirs(before: seq<File>, after: seq<File>, dirs: set<nat>) {
    forall d :: d in dirs ==> InDirs(after, [d]) == InDirs(before, [d])
  }

  /** The directories that are gone came before all that stay. */
  ghost predicate Newer(dirs: set<nat>, before: set<nat>) {
    dirs <= before && forall d, e :: d in dirs && e in before && e !in dirs ==> e < d
  }

  lemma TrimNothing(order: seq<File>, dirs: set<nat>)
    ensures SameDirs(order, order, dirs) && Newer(dirs, dirs)
  {
  }

  lemma TrimAgain(order0: seq<File>, order1: seq<File>, order2: seq<File>, dirs0: set<nat>, dirs1: set<nat>,
                  dirs2: set<nat>)
    requires SameDirs(order0, order1, dirs1) && SameDirs(order1, order2, dirs2)
    requires Newer(dirs1, dirs0) && Newer(dirs2, dirs1)
    ensures SameDirs(order0, order2, dirs2) && Newer(dirs2, dirs0)
  {
  }

  lemma OthersStay(order: seq<File>, k: nat, dir: nat, dirs: set<nat>)
    requires k <= |order| && dir !in dirs && forall i :: 0 <= i < k ==> order[i].dir == dir
    ensures SameDirs(order, order[k..], dirs)
  {
    assert order == order[..k] + order[k..];
    forall d | d in dirs ensures InDirs(order[k..], [d]) == InDirs(order, [d]) {
      InDirsConcat(order[..k], order[k..], [d]);
      InDirsNone(order[..k], [d]);
    }
  }

  lemma StaysPacked(order0: seq<File>, order1: seq<File>, dirs0: set<nat>, dirs1: set<nat>, size: nat)
    requires Packed(order0, dirs0, size) && SameDirs(order0, order1, dirs1) && dirs1 <= dirs0
    ensures Packed(order1, dirs1, size)
  {
  }

  lemma AddedElsewhere(s: seq<File>, g: File)
    ensures forall d: nat, h: bool :: d != g.dir ==> InDirs(s + [g.(held := h)], [d]) == InDirs(s, [d])
  {
    forall d: nat, h: bool | d != g.dir ensures InDirs(s + [g.(held := h)], [d]) == InDirs(s, [d]) {
      InDirsConcat(s, [g.(held := h)], [d]);
      InDirsOne(g.(held := h), [d]);
    }
  }

  lemma AddsPacked(s: seq<File>, g: File, dirs: set<nat>, size: nat)
    requires Packed(s, dirs, size) && forall d :: d in dirs ==> d <= g.dir
    requires g.dir in dirs || dirs == {} || (g.dir >= 1 && g.dir - 1 in dirs && |InDirs(s, [g.dir - 1])| == size)
    ensures Packed(s + [g], dirs + {g.dir}, size)
  {
    AddedElsewhere(s, g);
    assert g.(held := g.held) == g;
    forall d, e | d in dirs + {g.dir} && e in dirs + {g.dir} && d < e ensures |InDirs(s + [g], [d])| == size {
      assert InDirs(s + [g], [d]) == InDirs(s, [d]);
    }
  }

  /** A flag changes no directory's size. */
  lemma HeldElsewhere(s: seq<File>, g: File, dirs: set<nat>, size: nat)
    ensures var f := g.(held := false);
            && (forall d :: |InDirs(s + [g], [d])| == |InDirs(s + [f], [d])|)
            && (Packed(s + [f], dirs, size) ==> Packed(s + [g], dirs, size))
  {
    var f := g.(held := false);
    forall d: nat ensures |InDirs(s + [g], [d])| == |InDirs(s + [f], [d])| {
      InDirsEdit(s, f, [], g, [d]);
      assert s + [g] + [] == s + [g] && s + [f] + [] == s + [f];
    }
  }

  /** A packed store with many directories holds many messages. */
  lemma {:induction false} PackedBound(order: seq<File>, files: map<File, Message>, dirs: set<nat>, size: nat)
    requires DiskOk(order, files, dirs, size) && Packed(order, dirs, size)
    ensures |dirs| >= 1 ==> |order| >= (|dirs| - 1) * size
    decreases |dirs|
  {
    hide DiskOk, InDirs;
    if |dirs| >= 2 {
      var dir := Least(dirs);
      var rest := dirs - {dir};
      assert |rest| == |dirs| - 1;
      var e :| e in rest;
      var k := |InDirs(order, [dir])|;
      assert dir < e && k == size;
      FirstGone(order, files, dirs, size, dir);
      hide Packed;
      PackedBound(order[k..], map f | f in files && f.dir != dir :: files[f], rest, size);
      OneMore(|rest| - 1, size);
    }
  }

  lemma OneMore(n: int, size: int)
    ensures n * size + size == (n + 1) * size
  {
  }

  /** What is left of a packed store without its oldest directory. */
  lemma FirstGone(order: seq<File>, files: map<File, Message>, dirs: set<nat>, size: nat, dir: nat)
    requires DiskOk(order, files, dirs, size) && Packed(order, dirs, size)
    requires dir in dirs && forall d :: d in dirs ==> dir <= d
    ensures var k, files' := |InDirs(order, [dir])|, map f | f in files && f.dir != dir :: files[f];
            k <= |order| && DiskOk(order[k..], files', dirs - {dir}, size) && Packed(order[k..], dirs - {dir}, size)
  {
    var k := |InDirs(order, [dir])|;
    OldestFirst(order, dir);
    OthersStay(order, k, dir, dirs - {dir});
    TakeDisk(order, files, dirs, size, dir);
    StaysPacked(order, order[k..], dirs, dirs - {dir}, size);
  }

  lemma FewDirs(messages: nat, dirs: nat, maxDirs: nat, size: nat)
    requires dirs >= 1 ==> messages >= (dirs - 1) * size
    ensures messages < maxDirs * size ==> dirs <= maxDirs
  {
    if dirs > maxDirs {
      Grows(maxDirs, dirs - 1, size);
    }
  }

  lemma DiskFacts(order: seq<File>, files: map<File, Message>, dirs: set<nat>, size: nat)
    requires DiskOk(order, files, dirs, size)
    ensures Increasing(order) && size > 0 && forall g :: g in order ==> g.dir in dirs
    ensures forall d :: |InDirs(order, [d])| <= size
  {
  }

  lemma MoreDirs(order: seq<File>, files: map<File, Message>, dirs: set<nat>, size: nat, dir: nat)
    requires DiskOk(order, files, dirs, size)
    ensures DiskOk(order, files, dirs + {dir}, size)
  {
  }

  /** The next number in the newest directory, or the first in a new one, comes last. */
  lemma NameAfterAll(order: seq<File>, newest: nat, f: File)
    requires Increasing(order) && forall g :: g in order ==> g.dir <= newest
    requires var names := InDirs(order, [newest]);
             if names == [] then f.dir == newest
             else if f.dir == newest then f.num == names[|names| - 1].num + 1
             else f.dir == newest + 1
    ensures forall g :: g in order ==> Before(g, f)
    ensures f.dir == newest + 1 ==> InDirs(order, [f.dir]) == []
  {
    var names := InDirs(order, [newest]);
    InDirsIncreasing(order, [newest]);
    forall g | g in order ensures Before(g, f) {
      InDirsMembers(order, [newest], g);
      if g in names {
        var i :| 0 <= i < |names| && names[i] == g;
        assert i < |names| - 1 ==> Before(names[i], names[|names| - 1]);
        InDirsMembers(order, [newest], names[|names| - 1]);
        assert names[|names| - 1] in names;
      }
    }
    if f.dir == newest + 1 {
      InDirsNone(order, [f.dir]);
    }
  }

  lemma EditDisk(a: seq<File>, f: File, b: seq<File>, g: File, files: map<File, Message>, dirs: set<nat>, size: nat)
    requires DiskOk(a + [f] + b, files, dirs, size) && g.dir == f.dir && g.num == f.num
    ensures f in files && DiskOk(a + [g] + b, (files - {f})[g := files[f]], dirs, size)
    ensures forall h :: h in a + [f] + b ==> h in files
    ensures Entries(a + [g] + b, (files - {f})[g := files[f]])
         == Entries(a + [f] + b, files)[|a| := Entry(files[f], g.held)]
  {
    var s, t, files' := a + [f] + b, a + [g] + b, (files - {f})[g := files[f]];
    assert s[|a|] == f && f in s;
    EditLists(a, f, b, g, files.Keys);
    assert files'.Keys == (files.Keys - {f}) + {g};
    forall d ensures |InDirs(t, [d])| <= size {
      InDirsEdit(a, f, b, g, [d]);
      assert |InDirs(s, [d])| <= size;
    }
    forall h | h in t ensures h.dir in dirs {
      assert h in s || h == g;
    }
    forall i | 0 <= i < |t| && i != |a| ensures t[i] == s[i] && t[i] in files' && files'[t[i]] == files[s[i]] {
      assert s[i] in s && (i < |a| ==> Before(s[i], f)) && (i > |a| ==> Before(f, s[i]));
    }
  }

  lemma RemoveDisk(a: seq<File>, f: File, b: seq<File>, files: map<File, Message>, dirs: set<nat>, size: nat)
    requires DiskOk(a + [f] + b, files, dirs, size)
    ensures f in files && DiskOk(a + b, files - {f}, dirs, size)
    ensures forall h :: h in a + [f] + b ==> h in files
    ensures var q := Entries(a + [f] + b, files);
            Entries(a + b, files - {f}) == q[..|a|] + q[|a| + 1..] && q[|a|].msg == files[f]
  {
    var s, t, files' := a + [f] + b, a + b, files - {f};
    assert s[|a|] == f && f in s;
    RemoveLists(a, f, b, files.Keys);
    assert files'.Keys == files.Keys - {f};
    forall d ensures |InDirs(t, [d])| <= size {
      InDirsRemove(a, f, b, [d]);
      assert |InDirs(s, [d])| <= size;
    }
    forall h | h in t ensures h.dir in dirs {
      assert h in s;
    }
    forall i | 0 <= i < |t| ensures t[i] == s[if i < |a| then i else i + 1] && t[i] in files' {
      assert t[i] in t;
    }
  }

  lemma AppendDisk(s: seq<File>, g: File, m: Message, files: map<File, Message>, dirs: set<nat>, size: nat)
    requires DiskOk(s, files, dirs, size)
    requires g.dir in dirs && |InDirs(s, [g.dir])| < size && forall h :: h in s ==> Before(h, g)
    ensures DiskOk(s + [g], files[g := m], dirs, size)
    ensures Entries(s + [g], files[g := m]) == Entries(s, files) + [Entry(m, g.held)]
  {
    var t, files' := s + [g], files[g := m];
    AppendLists(s, g, files.Keys);
    assert files'.Keys == files.Keys + {g};
    forall d ensures |InDirs(t, [d])| <= size {
      InDirsConcat(s, [g], [d]);
      assert |InDirs(s, [d])| <= size;
    }
    forall i | 0 <= i < |s| ensures t[i] == s[i] && s[i] in files && files'[s[i]] == files[s[i]] {
      assert s[i] in s;
    }
  }

  /** The files of the oldest directory come first. */
  lemma {:induction false} OldestFirst(s: seq<File>, dir: nat)
    requires Increasing(s) && forall f :: f in s ==> dir <= f.dir
    ensures var k := |InDirs(s, [dir])|;
            && k <= |s|
            && (forall i :: 0 <= i < k ==> s[i].dir == dir)
            && (forall i :: k <= i < |s| ==> s[i].dir != dir)
    decreases |s|
  {
    if s != [] {
      assert s[0] in s;
      if s[0].dir == dir {
        assert forall f :: f in s[1..] ==> f in s;
        OldestFirst(s[1..], dir);
      } else {
        forall f | f in s ensures f.dir != dir {
          var i :| 0 <= i < |s| && s[i] == f;
          assert i > 0 ==> Before(s[0], s[i]);
        }
        InDirsNone(s, [dir]);
        assert forall i :: 0 <= i < |s| ==> s[i] in s;
      }
    }
  }

  lemma TakeDisk(s: seq<File>, files: map<File, Message>, dirs: set<nat>, size: nat, dir: nat)
    requires DiskOk(s, files, dirs, size)
    requires var k := |InDirs(s, [dir])|;
             && k <= |s|
             && (forall i :: 0 <= i < k ==> s[i].dir == dir)
             && (forall i :: k <= i < |s| ==> s[i].dir != dir)
    ensures forall f :: f in s ==> f in files
    ensures var k, files' := |InDirs(s, [dir])|, map f | f in files && f.dir != dir :: files[f];
            && DiskOk(s[k..], files', dirs - {dir}, size)
            && Entries(s[k..], files') == Entries(s, files)[k..]
  {
    var k, files' := |InDirs(s, [dir])|, map f | f in files && f.dir != dir :: files[f];
    var t := s[k..];
    TakeLists(s, k, files.Keys, dir);
    TakeCapped(s, k, size);
    assert files'.Keys == set f | f in files.Keys && f.dir != dir;
    TakeEntries(s, k, files, files');
  }

  lemma TakeCapped(s: seq<File>, k: nat, size: nat)
    requires k <= |s| && forall d {:trigger InDirs(s, [d])} :: |InDirs(s, [d])| <= size
    ensures forall d {:trigger InDirs(s[k..], [d])} :: |InDirs(s[k..], [d])| <= size
  {
    forall d ensures |InDirs(s[k..], [d])| <= size {
      InDirsConcat(s[..k], s[k..], [d]);
      assert s == s[..k] + s[k..];
      assert |InDirs(s, [d])| <= size;
    }
  }

  lemma TakeEntries(s: seq<File>, k: nat, files: map<File, Message>, files': map<File, Message>)
    requires k <= |s| && forall f :: f in s ==> f in files
    requires forall f :: f in s[k..] ==> f in files' && f in files && files'[f] == files[f]
    ensures Entries(s[k..], files') == Entries(s, files)[k..]
  {
    forall i | 0 <= i < |s| - k ensures Entries(s[k..], files')[i] == Entries(s, files)[k + i] {
      assert s[k..][i] in s[k..];
    }
  }

  lemma TakeLists(s: seq<File>, k: nat, fs: set<File>, dir: nat)
    requires Lists(s, fs) && k <= |s|
    requires (forall i :: 0 <= i < k ==> s[i].dir == dir) && (forall i :: k <= i < |s| ==> s[i].dir != dir)
    ensures Lists(s[k..], set f | f in fs && f.dir != dir)
    ensures forall f :: f in s[k..] ==> f in s && f.dir != dir
  {
    var t := s[k..];
    forall f ensures f in t <==> f in fs && f.dir != dir {
      if f in t {
        var i :| 0 <= i < |t| && t[i] == f;
        assert s[k + i] == f && f in s;
      }
      if f in fs && f.dir != dir {
        assert f in s;
        var i :| 0 <= i < |s| && s[i] == f;
        assert t[i - k] == f;
      }
    }
  }

  /** From `k` on, `ds` lists the directories in order. */
  ghost predicate Sorted(ds: seq<nat>, k: nat, dirs: set<nat>) {
    k <= |ds| && Rising(ds) && forall d :: d in dirs <==> d in ds[k..]
  }

  lemma FirstSorted(ds: seq<nat>, dirs: set<nat>)
    requires Rising(ds) && forall d :: d in ds <==> d in dirs
    ensures Sorted(ds, 0, dirs)
  {
    assert ds[0..] == ds;
  }

  /** The first directory comes before all others. */
  lemma NextSorted(ds: seq<nat>, k: nat, dirs: set<nat>)
    requires Sorted(ds, k, dirs) && k < |ds|
    ensures ds[k] in dirs && (forall d :: d in dirs ==> ds[k] <= d) && Sorted(ds, k + 1, dirs - {ds[k]})
  {
    var rest := ds[k + 1..];
    assert ds[k..] == [ds[k]] + rest;
    forall d | d in rest ensures ds[k] < d {
      var j :| 0 <= j < |rest| && rest[j] == d;
      assert ds[k + 1 + j] == d;
    }
  }
}
