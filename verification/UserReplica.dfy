/** A reader of the reports of user and group changes, and what every run of reports keeps. The
    reader takes the fields' names at their word: it creates only what it does not have, updates
    and deletes only what it has, and gives up on a report that asks for anything else. */
module UserReplica {
  import opened Common
  import opened U = UserChanges

  /** Users and group ids by name, and the pairs of a group and a member. */
  datatype Replica = Replica(users: map<Name, User>, gids: map<Name, int>, members: set<(Name, Name)>)

  const EMPTY := Replica(map[], map[], {})

  function Created<V>(m: map<Name, V>, entries: seq<(Name, V)>): Option<map<Name, V>>
    decreases |entries|
  {
    if entries == [] then Some(m)
    else if entries[0].0 in m then None
    else Created(m[entries[0].0 := entries[0].1], entries[1..])
  }

  function Updated<V>(m: map<Name, V>, entries: seq<(Name, V)>): Option<map<Name, V>>
    decreases |entries|
  {
    if entries == [] then Some(m)
    else if entries[0].0 !in m then None
    else Updated(m[entries[0].0 := entries[0].1], entries[1..])
  }

  function Deleted<V>(m: map<Name, V>, names: seq<Name>): Option<map<Name, V>>
    decreases |names|
  {
    if names == [] then Some(m)
    else if names[0] !in m then None
    else Deleted(m - {names[0]}, names[1..])
  }

  function UserEntries(users: seq<User>): seq<(Name, User)> {
    seq(|users|, i requires 0 <= i < |users| => (users[i].username, users[i]))
  }

  function GroupEntries(groups: seq<GroupData>): seq<(Name, int)> {
    seq(|groups|, i requires 0 <= i < |groups| => (groups[i].name, groups[i].gid))
  }

  ghost function Pairs(field: map<Name, seq<Name>>): set<(Name, Name)> {
    set g, m | g in field && m in field[g] :: (g, m)
  }

  function ReplayUsers(users: map<Name, User>, c: Changes): Option<map<Name, User>> {
    var created := Created(users, UserEntries(Items(c.createUsers)));
    if created.None? then None else
    var updated := Updated(created.value, UserEntries(Items(c.updateUsers)));
    if updated.None? then None else Deleted(updated.value, Items(c.deleteUsers))
  }

  /** Group ids before groups are deleted. */
  function ReplayGids(gids: map<Name, int>, c: Changes): Option<map<Name, int>> {
    var created := Created(gids, GroupEntries(Items(c.createGroups)));
    if created.None? then None else Updated(created.value, GroupEntries(Items(c.updateGroups)))
  }

  ghost function ReplayMembers(members: set<(Name, Name)>, gids: map<Name, int>, c: Changes)
    : Option<set<(Name, Name)>>
  {
    var gained, lost := Pairs(Fields(c.createMembers)), Pairs(Fields(c.deleteMembers));
    if gained !! members && lost <= members + gained && Fields(c.createMembers).Keys <= gids.Keys then
      Some(members + gained - lost)
    else None
  }

  /** A deleted group's members go with it. */
  ghost function Replay(r: Replica, c: Changes): Option<Replica> {
    var users, gids := ReplayUsers(r.users, c), ReplayGids(r.gids, c);
    if users.None? || gids.None? then None else
    var members, left := ReplayMembers(r.members, gids.value, c), Deleted(gids.value, Items(c.deleteGroups));
    if members.None? || left.None? then None else
    Some(Replica(users.value, left.value, set p | p in members.value && p.0 in left.value))
  }

  /** The replica that agrees with some data. */
  ghost function View(d: Data): Replica {
    Replica(d.users, map g | g in d.groups :: d.groups[g].gid,
            set g, m | g in d.groups && m in d.groups[g].members :: (g, m))
  }

  // ---------------------------------------------------------------------------------
  // Replaying lists
  // ---------------------------------------------------------------------------------

  /** The entries are those of a dictionary, each once. */
  ghost predicate Enumerates<V(!new)>(entries: seq<(Name, V)>, m: map<Name, V>) {
    Once(entries) && forall k, v :: (k, v) in entries <==> k in m && m[k] == v
  }

  lemma EnumeratesRest<V(!new)>(entries: seq<(Name, V)>, m: map<Name, V>)
    requires Enumerates(entries, m) && entries != []
    ensures entries[0].0 in m && m[entries[0].0] == entries[0].1
    ensures Enumerates(entries[1..], m - {entries[0].0})
  {
    var first, rest := entries[0], entries[1..];
    assert (first.0, first.1) in entries;
    assert entries == [first] + rest;
    forall i | 0 <= i < |rest| ensures rest[i].0 != first.0 {
      assert entries[0] != entries[i + 1];
      assert (rest[i].0, rest[i].1) in entries;
    }
  }

  lemma {:induction false} CreatedExactly<V(!new)>(m: map<Name, V>, entries: seq<(Name, V)>, add: map<Name, V>)
    requires Enumerates(entries, add)
    ensures Created(m, entries) == if m.Keys !! add.Keys then Some(m + add) else None
    decreases |entries|
  {
    if entries == [] {
      AllEnumerated(entries, add);
      assert add == map[];
      assert m + map[] == m;
    } else {
      EnumeratesRest(entries, add);
      var k := entries[0].0;
      if k !in m {
        CreatedExactly(m[k := add[k]], entries[1..], add - {k});
        assert m[k := add[k]] + (add - {k}) == m + add;
        assert m[k := add[k]].Keys !! (add - {k}).Keys <==> m.Keys !! add.Keys;
      }
    }
  }

  lemma AllEnumerated<V(!new)>(entries: seq<(Name, V)>, m: map<Name, V>)
    requires Enumerates(entries, m)
    ensures forall k :: k in m ==> (k, m[k]) in entries
  {
  }

  lemma {:induction false} UpdatedExactly<V(!new)>(m: map<Name, V>, entries: seq<(Name, V)>, add: map<Name, V>)
    requires Enumerates(entries, add)
    ensures Updated(m, entries) == if add.Keys <= m.Keys then Some(m + add) else None
    decreases |entries|
  {
    if entries == [] {
      AllEnumerated(entries, add);
      assert add == map[];
      assert m + map[] == m;
    } else {
      EnumeratesRest(entries, add);
      var k := entries[0].0;
      if k in m {
        UpdatedExactly(m[k := add[k]], entries[1..], add - {k});
        assert m[k := add[k]] + (add - {k}) == m + add;
        assert (add - {k}).Keys <= m[k := add[k]].Keys <==> add.Keys <= m.Keys;
      }
    }
  }

  lemma {:induction false} DeletedExactly<V(!new)>(m: map<Name, V>, names: seq<Name>, gone: set<Name>)
    requires Once(names) && forall k :: k in names <==> k in gone
    ensures Deleted(m, names) == if gone <= m.Keys then Some(m - gone) else None
    decreases |names|
  {
    if names == [] {
      assert gone == {};
      assert m - {} == m;
    } else {
      var k := names[0];
      assert names == [k] + names[1..];
      assert k in gone;
      if k in m {
        DeletedExactly(m - {k}, names[1..], gone - {k});
        assert (m - {k}) - (gone - {k}) == m - gone;
        assert gone - {k} <= (m - {k}).Keys <==> gone <= m.Keys;
      }
    }
  }

  // ---------------------------------------------------------------------------------
  // Replaying a report
  // ---------------------------------------------------------------------------------

  function NewUsers(before: Data, after: Data): map<Name, User> {
    map k | k in after.users && k !in before.users :: after.users[k]
  }

  function ChangedUsers(before: Data, after: Data): map<Name, User> {
    map k | k in after.users && k in before.users && before.users[k] != after.users[k] :: after.users[k]
  }

  function NewGids(before: Data, after: Data): map<Name, int> {
    map k | k in after.groups && k !in before.groups :: after.groups[k].gid
  }

  function ChangedGids(before: Data, after: Data): map<Name, int> {
    map k | k in after.groups && k in before.groups && before.groups[k].gid != after.groups[k].gid
          :: after.groups[k].gid
  }

  lemma UserLists(before: Data, after: Data, c: Changes)
    requires Indexed(after) && IsUserChanges(before, after, c)
    ensures Enumerates(UserEntries(Items(c.createUsers)), NewUsers(before, after))
    ensures Enumerates(UserEntries(Items(c.updateUsers)), ChangedUsers(before, after))
  {
    UserList(Items(c.createUsers), NewUsers(before, after));
    UserList(Items(c.updateUsers), ChangedUsers(before, after));
  }

  lemma UserList(users: seq<User>, m: map<Name, User>)
    requires Once(users) && forall u: User :: u in users <==> u.username in m && m[u.username] == u
    requires forall k :: k in m ==> m[k].username == k
    ensures Enumerates(UserEntries(users), m)
  {
    var entries := UserEntries(users);
    forall k, v ensures (k, v) in entries <==> k in m && m[k] == v {
      if (k, v) in entries {
        var i :| 0 <= i < |entries| && entries[i] == (k, v);
        assert users[i] in users;
      }
      if k in m && m[k] == v {
        assert v in users;
        var i :| 0 <= i < |users| && users[i] == v;
        assert entries[i] == (k, v);
      }
    }
  }

  lemma GroupLists(before: Data, after: Data, c: Changes)
    requires IsGroupChanges(before, after, c)
    ensures Enumerates(GroupEntries(Items(c.createGroups)), NewGids(before, after))
    ensures Enumerates(GroupEntries(Items(c.updateGroups)), ChangedGids(before, after))
  {
    GroupList(Items(c.createGroups), NewGids(before, after));
    GroupList(Items(c.updateGroups), ChangedGids(before, after));
  }

  lemma GroupList(groups: seq<GroupData>, m: map<Name, int>)
    requires Once(groups) && forall g: GroupData :: g in groups <==> g.name in m && m[g.name] == g.gid
    ensures Enumerates(GroupEntries(groups), m)
  {
    var entries := GroupEntries(groups);
    forall k, v ensures (k, v) in entries <==> k in m && m[k] == v {
      if (k, v) in entries {
        var i :| 0 <= i < |entries| && entries[i] == (k, v);
        assert groups[i] in groups;
      }
      if k in m && m[k] == v {
        assert GroupData(k, v) in groups;
        var i :| 0 <= i < |groups| && groups[i] == GroupData(k, v);
        assert entries[i] == (k, v);
      }
    }
  }

  lemma UsersReplayed(before: Data, after: Data, c: Changes)
    requires Indexed(after) && IsUserChanges(before, after, c)
    ensures ReplayUsers(before.users, c) == Some(after.users)
  {
    hide Created, Updated, Deleted, Enumerates, UserEntries;
    var created, changed, gone := NewUsers(before, after), ChangedUsers(before, after),
                                  before.users.Keys - after.users.Keys;
    UserLists(before, after, c);
    CreatedExactly(before.users, UserEntries(Items(c.createUsers)), created);
    UpdatedExactly(before.users + created, UserEntries(Items(c.updateUsers)), changed);
    DeletedExactly(before.users + created + changed, Items(c.deleteUsers), gone);
    assert before.users + created + changed - gone == after.users;
  }

  function GidsMerged(before: Data, after: Data): map<Name, int> {
    (map g | g in before.groups :: before.groups[g].gid) + NewGids(before, after) + ChangedGids(before, after)
  }

  lemma GidsReplayed(before: Data, after: Data, c: Changes)
    requires IsGroupChanges(before, after, c)
    ensures ReplayGids(View(before).gids, c) == Some(GidsMerged(before, after))
    ensures Deleted(GidsMerged(before, after), Items(c.deleteGroups)) == Some(View(after).gids)
  {
    hide Created, Updated, Deleted, Enumerates, GroupEntries, NewGids, ChangedGids,
         View, GidsMerged, NewGroup, ChangedGroup;
    hide IsMemberChanges, Sorted;
    var gids, created, changed := View(before).gids, NewGids(before, after), ChangedGids(before, after);
    var gone := before.groups.Keys - after.groups.Keys;
    GroupLists(before, after, c);
    GidKeys(before, after);
    GidsEnd(before, after);
    CreatedExactly(gids, GroupEntries(Items(c.createGroups)), created);
    UpdatedExactly(gids + created, GroupEntries(Items(c.updateGroups)), changed);
    DeletedExactly(gids + created + changed, Items(c.deleteGroups), gone);
  }

  lemma GidKeys(before: Data, after: Data)
    ensures View(before).gids.Keys == before.groups.Keys
    ensures NewGids(before, after).Keys == after.groups.Keys - before.groups.Keys
    ensures ChangedGids(before, after).Keys <= after.groups.Keys * before.groups.Keys
  {
  }

  lemma GidsEnd(before: Data, after: Data)
    ensures GidsMerged(before, after) == View(before).gids + NewGids(before, after) + ChangedGids(before, after)
    ensures GidsMerged(before, after).Keys == before.groups.Keys + after.groups.Keys
    ensures GidsMerged(before, after) - (before.groups.Keys - after.groups.Keys) == View(after).gids
  {
  }

  lemma MemberPairs(before: Data, after: Data, c: Changes)
    requires IsGroupChanges(before, after, c)
    ensures forall g, m :: (g, m) in Pairs(Fields(c.createMembers))
                      <==> g in after.groups && m in Gained(before, after, g)
    ensures forall g, m :: (g, m) in Pairs(Fields(c.deleteMembers))
                      <==> g in before.groups && g in after.groups && m in Lost(before, after, g)
    ensures Fields(c.createMembers).Keys <= after.groups.Keys
  {
    hide Sorted, NewGroup, ChangedGroup, Once;
  }

  /** Taking the gains and losses together. */
  lemma MembersEnd(before: Data, after: Data, gained: set<(Name, Name)>, lost: set<(Name, Name)>)
    requires forall g, m :: (g, m) in gained <==> g in after.groups && m in Gained(before, after, g)
    requires forall g, m :: (g, m) in lost <==> g in before.groups && g in after.groups && m in Lost(before, after, g)
    ensures gained !! View(before).members && lost <= View(before).members
    ensures forall g, m :: (g, m) in View(before).members + gained - lost && g in after.groups
                      <==> (g, m) in View(after).members
  {
    MemberOfView(before);
    MemberOfView(after);
    hide View;
    forall p | p in gained ensures p !in View(before).members {
      assert (p.0, p.1) in gained;
    }
    forall p | p in lost ensures p in View(before).members {
      assert (p.0, p.1) in lost;
    }
  }

  lemma MemberOfView(d: Data)
    ensures forall g, m :: (g, m) in View(d).members <==> g in d.groups && m in Members(d.groups[g])
    ensures View(d).gids.Keys == d.groups.Keys
  {
  }

  lemma MembersReplayed(before: Data, after: Data, c: Changes)
    requires IsGroupChanges(before, after, c)
    ensures var r := ReplayMembers(View(before).members, GidsMerged(before, after), c);
            && r.Some?
            && (set p | p in r.value && p.0 in View(after).gids) == View(after).members
  {
    MemberPairs(before, after, c);
    GidsEnd(before, after);
    MemberOfView(after);
    hide IsGroupChanges, Pairs, Fields, View, Gained, Lost, GidsMerged;
    var gained, lost := Pairs(Fields(c.createMembers)), Pairs(Fields(c.deleteMembers));
    MembersEnd(before, after, gained, lost);
    var members := View(before).members + gained - lost;
    forall p ensures p in members && p.0 in View(after).gids <==> p in View(after).members {
      assert p == (p.0, p.1);
    }
  }

  /** Replaying the difference of two states on the replica of the first gives that of the second. */
  lemma ReplayDifference(before: Data, after: Data, c: Changes)
    requires Indexed(after) && IsChanges(before, after, c)
    ensures Replay(View(before), c) == Some(View(after))
  {
    UsersReplayed(before, after, c);
    GidsReplayed(before, after, c);
    MembersReplayed(before, after, c);
    hide IsUserChanges, IsGroupChanges, ReplayUsers, ReplayGids, ReplayMembers, Deleted, GidsMerged;
  }

  /** There is nothing to report exactly when the replicas of the two states are the same. */
  lemma NothingExactlyWhenSame(before: Data, after: Data, c: Changes)
    requires Indexed(after) && IsChanges(before, after, c)
    ensures c == NOTHING <==> View(before) == View(after)
  {
    ReplayDifference(before, after, c);
    if c == NOTHING {
      MemberOfView(before);
      hide View, IsChanges;
      assert (set p | p in View(before).members + {} - {} && p.0 in View(before).gids) == View(before).members by {
        forall p | p in View(before).members ensures p.0 in View(before).gids {
          assert p == (p.0, p.1);
        }
      }
      ReplayNothing(View(before));
    } else if View(before) == View(after) {
      SameViews(before, after, c);
    }
  }

  lemma ReplayNothing(r: Replica)
    requires (set p | p in r.members + {} - {} && p.0 in r.gids) == r.members
    ensures Replay(r, NOTHING) == Some(r)
  {
    assert Pairs(map[]) == {};
  }

  lemma SameViews(before: Data, after: Data, c: Changes)
    requires IsChanges(before, after, c) && View(before) == View(after)
    ensures c == NOTHING
  {
    MemberOfView(before);
    MemberOfView(after);
    MemberPairs(before, after, c);
    forall g | g in after.groups ensures g in before.groups && after.groups[g].gid == before.groups[g].gid
                                      && Members(after.groups[g]) == Members(before.groups[g]) {
      assert g in View(after).gids;
      forall m ensures m in Members(after.groups[g]) <==> m in Members(before.groups[g]) {
        assert (g, m) in View(before).members <==> (g, m) in View(after).members;
      }
    }
    hide View, Pairs;
    Empties(c.createUsers);
    Empties(c.updateUsers);
    Empties(c.deleteUsers);
    Empties(c.createGroups);
    Empties(c.updateGroups);
    Empties(c.deleteGroups);
    assert Fields(c.createMembers) == map[];
    assert Fields(c.deleteMembers) == map[];
  }

  lemma Empties<T>(field: Option<seq<T>>)
    requires Proper(field)
    ensures field.None? <==> forall x :: x !in Items(field)
  {
    if field.Some? {
      assert field.value[0] in Items(field);
    }
  }

  /** The first report after `clear` creates everything. A reader takes it exactly when it has
      none of the users, groups and memberships, and then has them beside what it had; any other
      reader notices. */
  lemma FullReport(r: Replica, after: Data, c: Changes)
    requires Indexed(after) && IsChanges(Data(map[], map[]), after, c)
    ensures Replay(r, c).Some?
       <==> r.users.Keys !! after.users.Keys && r.gids.Keys !! after.groups.Keys && r.members !! View(after).members
    ensures Replay(r, c).Some? ==>
              && Replay(r, c).value.users == r.users + after.users
              && Replay(r, c).value.gids == r.gids + View(after).gids
  {
    FullUsers(r.users, after, c);
    FullGids(r.gids, after, c);
    FullMembers(after, c);
    GidKeys(after, after);
    hide View, Pairs, Created, Updated, Deleted, IsChanges, Indexed, ReplayUsers, ReplayGids;
  }

  lemma FullUsers(users: map<Name, User>, after: Data, c: Changes)
    requires Indexed(after) && IsUserChanges(Data(map[], map[]), after, c)
    ensures ReplayUsers(users, c) == if users.Keys !! after.users.Keys then Some(users + after.users) else None
  {
    hide Created, Updated, Deleted, Enumerates, UserEntries;
    var before := Data(map[], map[]);
    UserLists(before, after, c);
    assert ChangedUsers(before, after) == map[] && NewUsers(before, after) == after.users;
    CreatedExactly(users, UserEntries(Items(c.createUsers)), after.users);
    UpdatedExactly(users + after.users, UserEntries(Items(c.updateUsers)), map[]);
    DeletedExactly(users + after.users, Items(c.deleteUsers), {});
    assert users + after.users + map[] == users + after.users && users + after.users - {} == users + after.users;
  }

  lemma FullGids(gids: map<Name, int>, after: Data, c: Changes)
    requires IsGroupChanges(Data(map[], map[]), after, c)
    ensures ReplayGids(gids, c) == if gids.Keys !! after.groups.Keys then Some(gids + View(after).gids) else None
    ensures Deleted(gids + View(after).gids, Items(c.deleteGroups)) == Some(gids + View(after).gids)
  {
    hide Created, Updated, Deleted, Enumerates, GroupEntries, IsMemberChanges, Sorted, NewGroup, ChangedGroup;
    var before := Data(map[], map[]);
    var added := View(after).gids;
    GroupLists(before, after, c);
    GidKeys(before, after);
    assert ChangedGids(before, after) == map[] && NewGids(before, after) == added;
    CreatedExactly(gids, GroupEntries(Items(c.createGroups)), added);
    UpdatedExactly(gids + added, GroupEntries(Items(c.updateGroups)), map[]);
    DeletedExactly(gids + added, Items(c.deleteGroups), {});
    assert gids + added + map[] == gids + added && gids + added - {} == gids + added;
  }

  lemma FullMembers(after: Data, c: Changes)
    requires IsGroupChanges(Data(map[], map[]), after, c)
    ensures Pairs(Fields(c.createMembers)) == View(after).members && Pairs(Fields(c.deleteMembers)) == {}
    ensures Fields(c.createMembers).Keys <= after.groups.Keys
  {
    MemberPairs(Data(map[], map[]), after, c);
    MemberOfView(after);
    hide Pairs, View, IsGroupChanges;
    forall p ensures p in Pairs(Fields(c.createMembers)) <==> p in View(after).members {
      assert p == (p.0, p.1);
    }
    forall p ensures p !in Pairs(Fields(c.deleteMembers)) {
      assert p == (p.0, p.1);
    }
  }

  // ---------------------------------------------------------------------------------
  // Runs
  // ---------------------------------------------------------------------------------

  /** A replica and the snapshot beside it. */
  datatype State = State(replica: Replica, snapshot: Data)

  const START := State(EMPTY, Data(map[], map[]))

  /** A report of the data there is now that arrives and is recorded in a snapshot; one that does
      neither; and a resynchronization, where reader and snapshot both start again. */
  datatype Event =
    | Reported(users: seq<User>, groups: seq<Group>, changes: Changes)
    | Dropped
    | Resynchronized

  /** A report with nothing in it is not sent, and there is no snapshot then
      (landscape/client/monitor/usermonitor.py:146-156). */
  ghost function Apply(s: State, e: Event): Option<State> {
    match e
    case Reported(users, groups, c) =>
      if c == NOTHING then Some(s)
      else if Replay(s.replica, c).None? then None
      else Some(State(Replay(s.replica, c).value, DataOf(users, groups)))
    case Dropped => Some(s)
    case Resynchronized => Some(START)
  }

  ghost function Run(events: seq<Event>): Option<State>
    decreases |events|
  {
    if events == [] then Some(START)
    else
      var s := Run(events[..|events| - 1]);
      if s.None? then None else Apply(s.value, events[|events| - 1])
  }

  /** Every report is the one `create_diff` makes against the snapshot there is. */
  ghost predicate Detected(events: seq<Event>)
    decreases |events|
  {
    events != [] ==>
      var init, last := events[..|events| - 1], events[|events| - 1];
      && Detected(init)
      && (last.Reported? && Run(init).Some? ==>
            IsChanges(Run(init).value.snapshot, DataOf(last.users, last.groups), last.changes))
  }

  /** On every run the reader never gives up and its replica agrees with the snapshot; after a
      report it agrees with the data reported, whether or not there was anything to send. */
  lemma {:induction false} ReplicaFollows(events: seq<Event>)
    requires Detected(events)
    ensures Run(events).Some? && Run(events).value.replica == View(Run(events).value.snapshot)
    ensures events != [] && events[|events| - 1].Reported? ==>
              Run(events).value.replica == View(DataOf(events[|events| - 1].users, events[|events| - 1].groups))
    decreases |events|
  {
    hide Replay, IsChanges, DataOf;
    if events == [] {
      EmptyView();
    } else {
      var init, last := events[..|events| - 1], events[|events| - 1];
      ReplicaFollows(init);
      EmptyView();
      hide View;
      if last.Reported? {
        var before, after := Run(init).value.snapshot, DataOf(last.users, last.groups);
        ReplayDifference(before, after, last.changes);
        NothingExactlyWhenSame(before, after, last.changes);
      }
    }
  }

  lemma EmptyView()
    ensures View(Data(map[], map[])) == EMPTY
  {
  }
}
