/** The differences between two dictionaries (landscape/client/diff.py). */
module Diff {

  predicate Creates<K(==), V>(before: map<K, V>, after: map<K, V>, key: K) {
    key in after && key !in before
  }

  predicate Updates<K(==), V(==)>(before: map<K, V>, after: map<K, V>, key: K) {
    key in before && key in after && before[key] != after[key]
  }

  /** `diff`: three loops over sets of keys. The new values of keys that are new or changed, and
      the former values of keys that are gone. */
  method Diff<K(==), V(==)>(before: map<K, V>, after: map<K, V>)
    returns (creates: map<K, V>, updates: map<K, V>, deletes: map<K, V>)
    ensures creates == map k | k in after && Creates(before, after, k) :: after[k]
    ensures updates == map k | k in after && Updates(before, after, k) :: after[k]
    ensures deletes == map k | k in before && Creates(after, before, k) :: before[k]
  {
    creates := Picked(after, after.Keys - before.Keys);
    updates := map[];
    var rest := before.Keys * after.Keys;
    while rest != {}
      invariant rest <= before.Keys * after.Keys
      invariant updates == map k | k in after && Updates(before, after, k) && k !in rest :: after[k]
    {
      var key :| key in rest;
      if before[key] != after[key] {
        updates := updates[key := after[key]];
      }
      rest := rest - {key};
    }
    deletes := Picked(before, before.Keys - after.Keys);
  }

  /** The loops for creates and deletes: some keys of a dictionary, with their values. */
  method Picked<K(==), V>(all: map<K, V>, keys: set<K>) returns (r: map<K, V>)
    requires keys <= all.Keys
    ensures r == map k | k in keys :: all[k]
  {
    r := map[];
    var rest := keys;
    while rest != {}
      invariant rest <= keys
      invariant r == map k | k in keys - rest :: all[k]
    {
      var key :| key in rest;
      r := r[key := all[key]];
      rest := rest - {key};
    }
  }
}

/** The changes of users and groups reported since a snapshot, and what a reader of the reports
    makes of them (landscape/client/user/changes.py, the USERS schema). Names are UTF-8 texts. */
module UserChanges {
  import opened Common
  import KeyOrder
  import D = Diff

  type Name = KeyOrder.Bytes

  datatype User = User(username: Name, uid: int, primaryGid: int, enabled: bool, name: Option<Name>,
                       location: Option<Name>, workPhone: Option<Name>, homePhone: Option<Name>)

  datatype Group = Group(name: Name, gid: int, members: seq<Name>)

  datatype GroupData = GroupData(name: Name, gid: int)

  /** The dictionary `create_diff` returns; None for a field without data. */
  datatype Changes = Changes(
    createUsers: Option<seq<User>>,
    updateUsers: Option<seq<User>>,
    deleteUsers: Option<seq<Name>>,
    createGroups: Option<seq<GroupData>>,
    updateGroups: Option<seq<GroupData>>,
    deleteGroups: Option<seq<Name>>,
    createMembers: Option<map<Name, seq<Name>>>,
    deleteMembers: Option<map<Name, seq<Name>>>)

  const NOTHING := Changes(None, None, None, None, None, None, None, None)

  /** Users and groups by name. */
  datatype Data = Data(users: map<Name, User>, groups: map<Name, Group>)

  ghost predicate Indexed(d: Data) {
    && (forall k :: k in d.users ==> d.users[k].username == k)
    && (forall k :: k in d.groups ==> d.groups[k].name == k)
  }

  function Members(g: Group): set<Name> {
    set m | m in g.members
  }

  // ---------------------------------------------------------------------------------
  // What the fields of a report hold
  // ---------------------------------------------------------------------------------

  ghost predicate Once<T>(xs: seq<T>) {
    forall i, j :: 0 <= i < j < |xs| ==> xs[i] != xs[j]
  }

  ghost predicate Sorted(xs: seq<Name>) {
    forall i, j :: 0 <= i < j < |xs| ==> KeyOrder.LexLess(xs[i], xs[j])
  }

  ghost predicate SortedOf(xs: seq<Name>, names: set<Name>) {
    Sorted(xs) && forall x :: x in xs <==> x in names
  }

  function Gained(before: Data, after: Data, g: Name): set<Name>
    requires g in after.groups
  {
    if g in before.groups then Members(after.groups[g]) - Members(before.groups[g]) else Members(after.groups[g])
  }

  function Lost(before: Data, after: Data, g: Name): set<Name>
    requires g in before.groups && g in after.groups
  {
    Members(before.groups[g]) - Members(after.groups[g])
  }

  function Items<T>(field: Option<seq<T>>): seq<T> {
    if field.None? then [] else field.value
  }

  /** A field is left out rather than empty, and lists nothing twice. */
  ghost predicate Proper<T>(field: Option<seq<T>>) {
    field != Some([]) && Once(Items(field))
  }

  predicate NewUser(before: Data, after: Data, u: User) {
    u.username in after.users && after.users[u.username] == u && u.username !in before.users
  }

  predicate ChangedUser(before: Data, after: Data, u: User) {
    && u.username in after.users && after.users[u.username] == u
    && u.username in before.users && before.users[u.username] != u
  }

  predicate NewGroup(before: Data, after: Data, g: GroupData) {
    g.name in after.groups && after.groups[g.name].gid == g.gid && g.name !in before.groups
  }

  predicate ChangedGroup(before: Data, after: Data, g: GroupData) {
    && g.name in after.groups && after.groups[g.name].gid == g.gid
    && g.name in before.groups && before.groups[g.name].gid != g.gid
  }

  ghost predicate IsUserChanges(before: Data, after: Data, c: Changes) {
    && Proper(c.createUsers) && Proper(c.updateUsers) && Proper(c.deleteUsers)
    && (forall u :: u in Items(c.createUsers) <==> NewUser(before, after, u))
    && (forall u :: u in Items(c.updateUsers) <==> ChangedUser(before, after, u))
    && (forall k :: k in Items(c.deleteUsers) <==> k in before.users && k !in after.users)
  }

  ghost predicate IsGroupChanges(before: Data, after: Data, c: Changes) {
    && Proper(c.createGroups) && Proper(c.updateGroups) && Proper(c.deleteGroups) && Sorted(Items(c.deleteGroups))
    && (forall g :: g in Items(c.createGroups) <==> NewGroup(before, after, g))
    && (forall g :: g in Items(c.updateGroups) <==> ChangedGroup(before, after, g))
    && (forall k :: k in Items(c.deleteGroups) <==> k in before.groups && k !in after.groups)
    && IsMemberChanges(before, after, c.createMembers, c.deleteMembers)
  }

  /** The members gained and lost, for the groups that gained or lost any. A new group's members
      come as they are, those of an old one sorted. */
  ghost predicate IsMemberChanges(before: Data, after: Data, created: Option<map<Name, seq<Name>>>,
                                  deleted: Option<map<Name, seq<Name>>>)
  {
    && created != Some(map[]) && deleted != Some(map[])
    && (forall g :: g in Fields(created) <==> g in after.groups && Gained(before, after, g) != {})
    && (forall g :: g in Fields(deleted) <==> g in before.groups && g in after.groups && Lost(before, after, g) != {})
    && (forall g :: g in Fields(created) ==>
          if g in before.groups then SortedOf(Fields(created)[g], Gained(before, after, g))
          else Fields(created)[g] == after.groups[g].members)
    && (forall g :: g in Fields(deleted) ==> SortedOf(Fields(deleted)[g], Lost(before, after, g)))
  }

  function Fields(field: Option<map<Name, seq<Name>>>): map<Name, seq<Name>> {
    if field.None? then map[] else field.value
  }

  ghost predicate IsChanges(before: Data, after: Data, c: Changes) {
    IsUserChanges(before, after, c) && IsGroupChanges(before, after, c)
  }

  // ---------------------------------------------------------------------------------
  // Sorting and listing
  // ---------------------------------------------------------------------------------

  /** `sorted` of a set of names. */
  method SortedNames(names: set<Name>) returns (r: seq<Name>)
    ensures SortedOf(r, names) && Once(r)
  {
    var keys := set n | n in names :: KeyOrder.VText(n);
    var sorted := KeyOrder.SortKeys(keys);
    r := [];
    for i := 0 to |sorted|
      invariant |r| == i
      invariant forall j :: 0 <= j < i ==> sorted[j] == KeyOrder.VText(r[j])
    {
      assert sorted[i] in keys;
      r := r + [sorted[i].s];
    }
    forall i, j | 0 <= i < j < |r| ensures KeyOrder.LexLess(r[i], r[j]) && r[i] != r[j] {
      assert KeyOrder.KeyLess(sorted[i], sorted[j]);
      KeyOrder.KeyOrderMeaning(0, 0, r[i], r[j]);
      KeyOrder.LexTotal(r[i], r[j]);
    }
    forall x ensures x in r <==> x in names {
      if x in names {
        assert KeyOrder.VText(x) in sorted;
      }
      if x in r {
        var i :| 0 <= i < |r| && r[i] == x;
        assert sorted[i] in keys;
      }
    }
  }

  /** `list` of a set, in some order. */
  method List<T(==)>(elements: set<T>) returns (r: seq<T>)
    ensures Once(r) && forall x :: x in r <==> x in elements
  {
    r := [];
    var rest := elements;
    while rest != {}
      invariant rest <= elements
      invariant Once(r) && forall x :: x in r <==> x in elements && x !in rest
    {
      var x :| x in rest;
      r := r + [x];
      rest := rest - {x};
    }
  }

  /** A field of a report, left out when it would be empty. */
  method Field<T(==)>(elements: set<T>) returns (r: Option<seq<T>>)
    ensures Proper(r) && forall x :: x in Items(r) <==> x in elements
  {
    r := None;
    if elements != {} {
      var list := List(elements);
      var x :| x in elements;
      assert x in list;
      r := Some(list);
    }
  }

  // ---------------------------------------------------------------------------------
  // The detector
  // ---------------------------------------------------------------------------------

  const USERNAME: User -> Name := (u: User) => u.username

  const GROUP_NAME: Group -> Name := (g: Group) => g.name

  /** Data by name, the last one of a name winning. */
  function Index<T>(key: T -> Name, data: seq<T>): map<Name, T> {
    if data == [] then map[]
    else Index(key, data[..|data| - 1])[key(data[|data| - 1]) := data[|data| - 1]]
  }

  lemma {:induction false} IndexFacts<T>(key: T -> Name, data: seq<T>)
    ensures forall x :: x in data ==> key(x) in Index(key, data)
    ensures forall k :: k in Index(key, data) ==> Index(key, data)[k] in data && key(Index(key, data)[k]) == k
    ensures forall i :: 0 <= i < |data| && (forall j :: i < j < |data| ==> key(data[j]) != key(data[i])) ==>
              key(data[i]) in Index(key, data) && Index(key, data)[key(data[i])] == data[i]
  {
    if data != [] {
      var init, last := data[..|data| - 1], data[|data| - 1];
      IndexFacts(key, init);
      assert data == init + [last];
    }
  }

  /** `_create_index`. */
  method CreateIndex<T>(key: T -> Name, data: seq<T>) returns (index: map<Name, T>)
    ensures index == Index(key, data)
  {
    index := map[];
    for i := 0 to |data|
      invariant index == Index(key, data[..i])
    {
      assert data[..i + 1][..i] == data[..i];
      index := index[key(data[i]) := data[i]];
    }
    assert data[..|data|] == data;
  }

  ghost function DataOf(users: seq<User>, groups: seq<Group>): (d: Data)
    ensures Indexed(d)
  {
    IndexFacts(USERNAME, users);
    IndexFacts(GROUP_NAME, groups);
    Data(Index(USERNAME, users), Index(GROUP_NAME, groups))
  }

  /** `UserChanges`. What the provider answers is a parameter of the methods that ask it. */
  class UserChanges {
    var savedUsers: Option<map<Name, User>>
    var savedGroups: Option<map<Name, Group>>
    var oldUsers: map<Name, User>
    var oldGroups: map<Name, Group>
    var newUsers: map<Name, User>
    var newGroups: map<Name, Group>

    ghost function Saved(): Data reads this {
      Data(if savedUsers.Some? then savedUsers.value else map[], if savedGroups.Some? then savedGroups.value else map[])
    }

    ghost function Before(): Data reads this {
      Data(oldUsers, oldGroups)
    }

    ghost function After(): Data reads this {
      Data(newUsers, newGroups)
    }

    ghost predicate Valid() reads this {
      Indexed(Saved()) && Indexed(After())
    }

    constructor (savedUsers: Option<map<Name, User>>, savedGroups: Option<map<Name, Group>>, users: seq<User>,
                 groups: seq<Group>)
      requires Indexed(Data(if savedUsers.Some? then savedUsers.value else map[],
                            if savedGroups.Some? then savedGroups.value else map[]))
      ensures Valid() && this.savedUsers == savedUsers && this.savedGroups == savedGroups
      ensures Before() == Saved() && After() == DataOf(users, groups)
    {
      this.savedUsers, this.savedGroups := savedUsers, savedGroups;
      oldUsers, oldGroups, newUsers, newGroups := map[], map[], map[], map[];
      new;
      Refresh(users, groups);
    }

    /** `_refresh`. */
    method Refresh(users: seq<User>, groups: seq<Group>)
      requires Valid()
      modifies this`oldUsers, this`oldGroups, this`newUsers, this`newGroups
      ensures Valid() && Before() == Saved() && After() == DataOf(users, groups)
    {
      oldUsers := if savedUsers.Some? then savedUsers.value else map[];
      oldGroups := if savedGroups.Some? then savedGroups.value else map[];
      newUsers := CreateIndex(USERNAME, users);
      newGroups := CreateIndex(GROUP_NAME, groups);
      assert newUsers == DataOf(users, groups).users;
      assert newGroups == DataOf(users, groups).groups;
      assert Indexed(Saved());
    }

    /** `snapshot`. */
    method Snapshot()
      requires Valid()
      modifies this`savedUsers, this`savedGroups
      ensures Valid() && Saved() == After()
    {
      savedUsers := Some(newUsers);
      savedGroups := Some(newGroups);
    }

    /** `clear`. */
    method Clear()
      requires Valid()
      modifies this`savedUsers, this`savedGroups
      ensures Valid() && Saved() == Data(map[], map[])
    {
      savedUsers := None;
      savedGroups := None;
    }

    /** `create_diff`. */
    method CreateDiff(users: seq<User>, groups: seq<Group>) returns (changes: Changes)
      requires Valid()
      modifies this`oldUsers, this`oldGroups, this`newUsers, this`newGroups
      ensures Valid() && Before() == Saved() && After() == DataOf(users, groups)
      ensures IsChanges(Saved(), After(), changes)
    {
      Refresh(users, groups);
      changes := DetectUserChanges();
      changes := DetectGroupChanges(changes);
    }

    /** `_detect_user_changes`. */
    method DetectUserChanges() returns (changes: Changes)
      requires Valid()
      ensures IsUserChanges(Before(), After(), changes)
    {
      var creates, updates, deletes := D.Diff(oldUsers, newUsers);
      var created := Field(creates.Values);
      var updated := Field(updates.Values);
      var deleted := Field(deletes.Keys);
      changes := NOTHING.(createUsers := created, updateUsers := updated, deleteUsers := deleted);
      UserValues(Before(), After(), creates, updates);
    }

    /** `_detect_group_changes`, added to the changes of the users. */
    method DetectGroupChanges(userChanges: Changes) returns (changes: Changes)
      requires Valid() && IsUserChanges(Before(), After(), userChanges)
      ensures IsChanges(Before(), After(), changes)
    {
      hide Once, NewGroup, ChangedGroup, Gained, Lost, SortedOf, IsMemberChanges, IsUserChanges, IsChanges, NewMembers;
      var creates, updates, deletes := D.Diff(oldGroups, newGroups);
      var created, createMembers := NewGroups(creates);
      var updated, gained, lost := ChangedGroups(updates);
      assert deletes.Keys == Before().groups.Keys - After().groups.Keys;
      var names := SortedNames(deletes.Keys);
      var allMembers := createMembers + gained;
      changes := userChanges.(
        createGroups := if created == [] then None else Some(created),
        updateGroups := if updated == [] then None else Some(updated),
        deleteGroups := if names == [] then None else Some(names),
        createMembers := if allMembers == map[] then None else Some(allMembers),
        deleteMembers := if lost == map[] then None else Some(lost));
      MembersMerged(Before(), After(), createMembers, gained, lost);
      Assembled(Before(), After(), userChanges, changes, created, updated, names);
    }

    /** The loop over the groups created. */
    method NewGroups(creates: map<Name, Group>) returns (groups: seq<GroupData>, members: map<Name, seq<Name>>)
      requires Valid() && creates == map k | k in newGroups && D.Creates(oldGroups, newGroups, k) :: newGroups[k]
      ensures Once(groups) && forall g :: g in groups <==> NewGroup(Before(), After(), g)
      ensures members == NewMembers(Before(), After())
    {
      groups, members := [], map[];
      var rest := creates.Keys;
      while rest != {}
        invariant rest <= creates.Keys
        invariant Once(groups) && forall g :: g in groups <==> NewGroup(Before(), After(), g) && g.name !in rest
        invariant members == map k | k in creates && k !in rest && newGroups[k].members != [] :: newGroups[k].members
      {
        var key :| key in rest;
        var value := creates[key];
        if value.members != [] {
          members := members[value.name := value.members];
        }
        groups := groups + [GroupData(value.name, value.gid)];
        rest := rest - {key};
      }
      assert forall k :: k in creates <==> k in newGroups && k !in oldGroups;
    }

    /** The loop over the groups updated. */
    method ChangedGroups(updates: map<Name, Group>)
      returns (groups: seq<GroupData>, gained: map<Name, seq<Name>>, lost: map<Name, seq<Name>>)
      requires Valid() && updates == map k | k in newGroups && D.Updates(oldGroups, newGroups, k) :: newGroups[k]
      ensures Once(groups) && forall g :: g in groups <==> ChangedGroup(Before(), After(), g)
      ensures forall k :: k in gained <==> k in newGroups && k in oldGroups && Gained(Before(), After(), k) != {}
      ensures forall k :: k in gained ==> SortedOf(gained[k], Gained(Before(), After(), k))
      ensures forall k :: k in lost <==> k in newGroups && k in oldGroups && Lost(Before(), After(), k) != {}
      ensures forall k :: k in lost ==> SortedOf(lost[k], Lost(Before(), After(), k))
    {
      groups, gained, lost := [], map[], map[];
      var rest := updates.Keys;
      while rest != {}
        invariant rest <= updates.Keys
        invariant Once(groups) && forall g :: g in groups <==> ChangedGroup(Before(), After(), g) && g.name !in rest
        invariant forall k :: k in gained <==> k in updates && k !in rest && Gained(Before(), After(), k) != {}
        invariant forall k :: k in gained ==> SortedOf(gained[k], Gained(Before(), After(), k))
        invariant forall k :: k in lost <==> k in updates && k !in rest && Lost(Before(), After(), k) != {}
        invariant forall k :: k in lost ==> SortedOf(lost[k], Lost(Before(), After(), k))
      {
        hide SortedOf;
        var key :| key in rest;
        var oldData, newData := oldGroups[key], updates[key];
        var oldMembers, newMembers := Members(oldData), Members(newData);
        if newMembers - oldMembers != {} {
          var sorted := SortedNames(newMembers - oldMembers);
          gained := gained[key := sorted];
        }
        if oldMembers - newMembers != {} {
          var sorted := SortedNames(oldMembers - newMembers);
          lost := lost[key := sorted];
        }
        if oldData.gid != newData.gid {
          groups := groups + [GroupData(key, newData.gid)];
        }
        rest := rest - {key};
      }
    }
  }

  lemma Assembled(before: Data, after: Data, users: Changes, c: Changes, created: seq<GroupData>,
                  updated: seq<GroupData>, names: seq<Name>)
    requires IsUserChanges(before, after, users)
    requires c.createUsers == users.createUsers && c.updateUsers == users.updateUsers
             && c.deleteUsers == users.deleteUsers
    requires Once(created) && forall g :: g in created <==> NewGroup(before, after, g)
    requires Once(updated) && forall g :: g in updated <==> ChangedGroup(before, after, g)
    requires Once(names) && SortedOf(names, before.groups.Keys - after.groups.Keys)
    requires c.createGroups == if created == [] then None else Some(created)
    requires c.updateGroups == if updated == [] then None else Some(updated)
    requires c.deleteGroups == if names == [] then None else Some(names)
    requires IsMemberChanges(before, after, c.createMembers, c.deleteMembers)
    ensures IsChanges(before, after, c)
  {
    hide NewGroup, ChangedGroup, NewUser, ChangedUser, IsMemberChanges, Once, KeyOrder.LexLess;
    assert Items(c.createGroups) == created;
    assert Items(c.updateGroups) == updated;
    assert Items(c.deleteGroups) == names;
  }

  lemma UserValues(before: Data, after: Data, creates: map<Name, User>, updates: map<Name, User>)
    requires Indexed(after)
    requires creates == map k | k in after.users && D.Creates(before.users, after.users, k) :: after.users[k]
    requires updates == map k | k in after.users && D.Updates(before.users, after.users, k) :: after.users[k]
    ensures forall u :: u in creates.Values <==> NewUser(before, after, u)
    ensures forall u :: u in updates.Values <==> ChangedUser(before, after, u)
  {
    forall u ensures u in creates.Values <==> NewUser(before, after, u) {
      if NewUser(before, after, u) {
        assert creates[u.username] == u;
      }
    }
    forall u ensures u in updates.Values <==> ChangedUser(before, after, u) {
      if ChangedUser(before, after, u) {
        assert updates[u.username] == u;
      }
    }
  }

  /** The members of the new groups that have any. */
  function NewMembers(before: Data, after: Data): map<Name, seq<Name>> {
    map k | k in after.groups && k !in before.groups && after.groups[k].members != [] :: after.groups[k].members
  }

  lemma MembersMerged(before: Data, after: Data, created: map<Name, seq<Name>>, gained: map<Name, seq<Name>>,
                      lost: map<Name, seq<Name>>)
    requires created == NewMembers(before, after)
    requires forall k :: k in gained <==> k in after.groups && k in before.groups && Gained(before, after, k) != {}
    requires forall k :: k in gained ==> SortedOf(gained[k], Gained(before, after, k))
    requires forall k :: k in lost <==> k in after.groups && k in before.groups && Lost(before, after, k) != {}
    requires forall k :: k in lost ==> SortedOf(lost[k], Lost(before, after, k))
    ensures var all := created + gained;
            IsMemberChanges(before, after, if all == map[] then None else Some(all),
                            if lost == map[] then None else Some(lost))
  {
    hide SortedOf;
    forall k | k in after.groups && k !in before.groups
      ensures Gained(before, after, k) != {} <==> after.groups[k].members != []
    {
      var members := after.groups[k].members;
      if members != [] {
        assert members[0] in Members(after.groups[k]);
      }
    }
  }

}
