/**
 * The inventory of hosts and groups: a map from host name to Host and a
 * group index from group name to the list of its member host names, built
 * from an already parsed inventory document.
 */
module Inventory {
  import opened Wrappers

  const DefaultPort: int := 22

  /** An entry of a `variables:` block: passthrough metadata the core never interprets. */
  datatype Value =
    | String(s: string)
    | Integer(i: int)
    | Boolean(b: bool)
    | Float(f: real)
    | Null
    | Sequence(items: seq<Value>)
    | Mapping(entries: map<string, Value>)

  /**
   * A parsed `hosts:` entry. `None` stands for a key the entry does not
   * have; the loader supplies the defaults.
   */
  datatype HostEntry = HostEntry(
    hostname: Option<string>,
    username: Option<string>,
    password: Option<string>,
    keyFile: Option<string>,
    port: Option<int>,
    groups: Option<seq<string>>,
    variables: Option<map<string, Value>>)

  /** A parsed `groups:` entry; its `variables` are read by nothing in the core. */
  datatype GroupEntry = GroupEntry(hosts: Option<seq<string>>, variables: Option<map<string, Value>>)

  /** A parsed inventory document: both top-level mappings in document order. */
  datatype Document = Document(
    hosts: Option<seq<(string, HostEntry)>>,
    groups: Option<seq<(string, GroupEntry)>>)

  /**
   * The errors of the inventory. The first three are `InventoryError`;
   * `KeyError` is the raw lookup failure of a missing dictionary key.
   */
  datatype Error =
    | HostNotFound(name: string)
    | GroupNotFound(group: string)
    | LoadFailed(cause: Error)
    | KeyError(key: string)
  {
    predicate IsInventoryError() {
      !KeyError?
    }
  }

  datatype Host = Host(
    hostname: string,
    username: string,
    password: Option<string>,
    keyFile: Option<string>,
    port: int,
    groups: seq<string>,
    variables: map<string, Value>)
  {
    /**
     * `Host.from_dict`: `hostname` and `username` are required (a missing one
     * raises KeyError, `hostname` being looked up first); `port` defaults to
     * 22, `groups` and `variables` to empty, `password` and `key_file` to None.
     */
    static function FromDict(data: HostEntry): (r: Result<Host, Error>)
      ensures r.Ok? <==> data.hostname.Some? && data.username.Some?
      ensures data.hostname.None? ==> r == Err(KeyError("hostname"))
      ensures data.hostname.Some? && data.username.None? ==> r == Err(KeyError("username"))
      ensures r.Ok? ==>
        && r.value.hostname == data.hostname.value
        && r.value.username == data.username.value
        && r.value.password == data.password
        && r.value.keyFile == data.keyFile
        && r.value.port == data.port.GetOr(DefaultPort)
        && r.value.groups == data.groups.GetOr([])
        && r.value.variables == data.variables.GetOr(map[])
    {
      match (data.hostname, data.username)
      case (None, _) => Err(KeyError("hostname"))
      case (Some(_), None) => Err(KeyError("username"))
      case (Some(hostname), Some(username)) =>
        Ok(Host(hostname, username, data.password, data.keyFile, data.port.GetOr(DefaultPort),
                data.groups.GetOr([]), data.variables.GetOr(map[])))
    }
  }

  // ---------------------------------------------------------------------------
  // The abstract state and its invariants
  // ---------------------------------------------------------------------------

  /** The two maps of an inventory, as a value. */
  datatype Index = Index(hosts: map<string, Host>, groups: map<string, seq<string>>)

  const Empty: Index := Index(map[], map[])

  /** The members of group `g`, or none when the index has no entry for it. */
  function Members(groups: map<string, seq<string>>, g: string): seq<string> {
    if g in groups then groups[g] else []
  }

  /** Appends `x` to `s` unless it is already there, as `add_host` does for a group list. */
  function AppendAbsent(s: seq<string>, x: string): (r: seq<string>)
    ensures x in r
    ensures forall y :: y in r <==> y in s || y == x
  {
    if x in s then s else s + [x]
  }

  predicate NoDuplicates(s: seq<string>) {
    forall i, j :: 0 <= i < j < |s| ==> s[i] != s[j]
  }

  /** Every name listed under a group is a known host. */
  predicate MembersKnown(ix: Index) {
    forall g, n :: g in ix.groups && n in ix.groups[g] ==> n in ix.hosts
  }

  /** No group lists a host twice. */
  predicate GroupsDistinct(ix: Index) {
    forall g :: g in ix.groups ==> NoDuplicates(ix.groups[g])
  }

  /** Host to group: every group a host names lists that host. */
  predicate HostsListed(ix: Index) {
    forall n, g :: n in ix.hosts && g in ix.hosts[n].groups ==> g in ix.groups && n in ix.groups[g]
  }

  /** Group to host: every host a group lists is known and names that group. */
  predicate GroupsNamed(ix: Index) {
    forall g, n :: g in ix.groups && n in ix.groups[g] ==> n in ix.hosts && g in ix.hosts[n].groups
  }

  /** No group entry is empty: an entry is only ever created together with a member. */
  predicate NoEmptyGroups(ix: Index) {
    forall g :: g in ix.groups ==> ix.groups[g] != []
  }

  /** The bidirectional consistency of the two maps that the loader establishes. */
  predicate Consistent(ix: Index) {
    HostsListed(ix) && GroupsNamed(ix)
  }

  // ---------------------------------------------------------------------------
  // add_host
  // ---------------------------------------------------------------------------

  /** One iteration of the loop of `add_host`: register `name` under group `g`. */
  function RegisterOne(groups: map<string, seq<string>>, name: string, g: string): map<string, seq<string>> {
    groups[g := AppendAbsent(Members(groups, g), name)]
  }

  /** The group index after the loop of `add_host` over the host's groups `gs`, in order. */
  function Register(groups: map<string, seq<string>>, name: string, gs: seq<string>): map<string, seq<string>>
    decreases |gs|
  {
    if gs == [] then groups
    else RegisterOne(Register(groups, name, gs[..|gs| - 1]), name, gs[|gs| - 1])
  }

  /** One more group of the host's list is one more step of the loop. */
  lemma RegisterPrefix(groups: map<string, seq<string>>, name: string, gs: seq<string>, i: int)
    requires 0 <= i < |gs|
    ensures Register(groups, name, gs[..i + 1]) == RegisterOne(Register(groups, name, gs[..i]), name, gs[i])
  {
    assert gs[..i + 1][..i] == gs[..i];
  }

  /** `add_host(name, host)` on the abstract state. */
  function AddHostSpec(ix: Index, name: string, host: Host): Index {
    Index(ix.hosts[name := host], Register(ix.groups, name, host.groups))
  }

  /**
   * What the loop of `add_host` does to each group: a group named by the host
   * gets `name` appended if it was absent (created empty first if needed),
   * however often the host names it; every other group is untouched.
   */
  lemma {:induction false} RegisterAt(groups: map<string, seq<string>>, name: string, gs: seq<string>, g: string)
    ensures g in Register(groups, name, gs) <==> g in groups || g in gs
    ensures g in gs ==> Register(groups, name, gs)[g] == AppendAbsent(Members(groups, g), name)
    ensures g !in gs && g in groups ==> Register(groups, name, gs)[g] == groups[g]
  {
    if gs != [] {
      var init := gs[..|gs| - 1];
      var last := gs[|gs| - 1];
      RegisterAt(groups, name, init, g);
      assert gs == init + [last];
      assert g in gs <==> g in init || g == last;
      var mid := Register(groups, name, init);
      if g == last && g in init {
        assert Members(mid, g) == AppendAbsent(Members(groups, g), name);
      }
    }
  }

  /** Registering the same host under the same groups a second time changes nothing. */
  lemma RegisterIdempotent(groups: map<string, seq<string>>, name: string, gs: seq<string>)
    ensures Register(Register(groups, name, gs), name, gs) == Register(groups, name, gs)
  {
    var once := Register(groups, name, gs);
    var twice := Register(once, name, gs);
    forall g | g in once || g in twice
      ensures g in once && g in twice && twice[g] == once[g]
    {
      RegisterAt(groups, name, gs, g);
      RegisterAt(once, name, gs, g);
    }
  }

  /** `add_host` is idempotent on the whole state. */
  lemma AddHostIdempotent(ix: Index, name: string, host: Host)
    ensures AddHostSpec(AddHostSpec(ix, name, host), name, host) == AddHostSpec(ix, name, host)
  {
    RegisterIdempotent(ix.groups, name, host.groups);
  }

  /**
   * After `add_host(name, host)`: `name` maps to `host`, each of the host's
   * groups exists and lists `name`, other hosts are untouched, groups the host
   * does not name are untouched, and no membership is removed (every old
   * group list is a prefix of the new one, extended by `name` at most).
   */
  lemma AddHostEffect(ix: Index, name: string, host: Host)
    ensures var ix' := AddHostSpec(ix, name, host);
      && ix'.hosts.Keys == ix.hosts.Keys + {name}
      && ix'.hosts[name] == host
      && (forall n :: n in ix.hosts && n != name ==> ix'.hosts[n] == ix.hosts[n])
      && (forall g :: g in host.groups ==> g in ix'.groups && name in ix'.groups[g])
      && (forall g :: g in ix.groups && g !in host.groups ==> g in ix'.groups && ix'.groups[g] == ix.groups[g])
      && (forall g :: g in ix'.groups ==> g in ix.groups || g in host.groups)
      && (forall g :: g in ix.groups ==>
            && g in ix'.groups
            && (ix'.groups[g] == ix.groups[g] || ix'.groups[g] == ix.groups[g] + [name]))
  {
    var ix' := AddHostSpec(ix, name, host);
    forall g | g in ix.groups || g in host.groups || g in ix'.groups
      ensures g in ix'.groups
      ensures g in host.groups ==> name in ix'.groups[g]
      ensures g in ix.groups && g !in host.groups ==> ix'.groups[g] == ix.groups[g]
      ensures g in ix'.groups ==> g in ix.groups || g in host.groups
      ensures g in ix.groups ==> ix'.groups[g] == ix.groups[g] || ix'.groups[g] == ix.groups[g] + [name]
    {
      RegisterAt(ix.groups, name, host.groups, g);
    }
  }

  /** `add_host` never creates a duplicate entry in a group list. */
  lemma AddHostKeepsGroupsDistinct(ix: Index, name: string, host: Host)
    requires GroupsDistinct(ix)
    ensures GroupsDistinct(AddHostSpec(ix, name, host))
  {
    var ix' := AddHostSpec(ix, name, host);
    forall g | g in ix'.groups
      ensures NoDuplicates(ix'.groups[g])
    {
      RegisterAt(ix.groups, name, host.groups, g);
    }
  }

  /** Because the host is inserted before any group lists it, every listed name stays known. */
  lemma AddHostKeepsMembersKnown(ix: Index, name: string, host: Host)
    requires MembersKnown(ix)
    ensures MembersKnown(AddHostSpec(ix, name, host))
  {
    var ix' := AddHostSpec(ix, name, host);
    forall g, n | g in ix'.groups && n in ix'.groups[g]
      ensures n in ix'.hosts
    {
      RegisterAt(ix.groups, name, host.groups, g);
    }
  }

  /** Adding a host under a name not yet in use keeps both directions of consistency. */
  lemma AddHostKeepsConsistent(ix: Index, name: string, host: Host)
    requires Consistent(ix) && name !in ix.hosts
    ensures Consistent(AddHostSpec(ix, name, host))
  {
    var ix' := AddHostSpec(ix, name, host);
    forall n, g | n in ix'.hosts && g in ix'.hosts[n].groups
      ensures g in ix'.groups && n in ix'.groups[g]
    {
      RegisterAt(ix.groups, name, host.groups, g);
    }
    forall g, n | g in ix'.groups && n in ix'.groups[g]
      ensures n in ix'.hosts && g in ix'.hosts[n].groups
    {
      RegisterAt(ix.groups, name, host.groups, g);
    }
  }

  /** `add_host` creates a group entry only to put `name` in it, so no entry is empty. */
  lemma AddHostKeepsNoEmptyGroups(ix: Index, name: string, host: Host)
    requires NoEmptyGroups(ix)
    ensures NoEmptyGroups(AddHostSpec(ix, name, host))
  {
    var ix' := AddHostSpec(ix, name, host);
    forall g | g in ix'.groups
      ensures ix'.groups[g] != []
    {
      RegisterAt(ix.groups, name, host.groups, g);
    }
  }

  // ---------------------------------------------------------------------------
  // get_host and get_group_hosts
  // ---------------------------------------------------------------------------

  /**
   * The hosts stored under `names`, in order; the first name without an
   * entry raises KeyError (the list comprehension of `get_group_hosts`).
   */
  function HostsOf(hosts: map<string, Host>, names: seq<string>): (r: Result<seq<Host>, Error>)
    ensures r.Ok? <==> forall k :: 0 <= k < |names| ==> names[k] in hosts
    ensures r.Ok? ==> |r.value| == |names| && forall k :: 0 <= k < |names| ==> r.value[k] == hosts[names[k]]
    ensures r.Err? ==> exists k :: 0 <= k < |names| && r.error == KeyError(names[k]) && names[k] !in hosts
                                && forall j :: 0 <= j < k ==> names[j] in hosts
  {
    if names == [] then Ok([])
    else if names[0] !in hosts then Err(KeyError(names[0]))
    else match HostsOf(hosts, names[1..])
      case Ok(rest) => Ok([hosts[names[0]]] + rest)
      case Err(e) => Err(e)
  }

  // ---------------------------------------------------------------------------
  // The group merge of from_yaml
  // ---------------------------------------------------------------------------

  /**
   * One step of the merge: a known host that does not name group `g` yet
   * gets `g` appended to its groups and is appended to the index entry of
   * `g` (created if needed). Unknown hosts and hosts already naming `g` are
   * skipped.
   */
  function MergeMember(ix: Index, g: string, h: string): (ix': Index)
    ensures ix'.hosts.Keys == ix.hosts.Keys
    ensures ix'.groups.Keys == ix.groups.Keys + (if Joins(ix, g, h) then {g} else {})
  {
    if Joins(ix, g, h) then
      Index(ix.hosts[h := ix.hosts[h].(groups := ix.hosts[h].groups + [g])],
            ix.groups[g := Members(ix.groups, g) + [h]])
    else ix
  }

  /** Host `h` is known and does not name group `g` yet, so the merge would add it. */
  predicate Joins(ix: Index, g: string, h: string) {
    h in ix.hosts && g !in ix.hosts[h].groups
  }

  /** The inner loop of the merge: the hosts listed under group `g`, in order. */
  function MergeNames(ix: Index, g: string, names: seq<string>): (ix': Index)
    ensures ix'.hosts.Keys == ix.hosts.Keys
    decreases |names|
  {
    if names == [] then ix
    else MergeMember(MergeNames(ix, g, names[..|names| - 1]), g, names[|names| - 1])
  }

  /** The host names a `groups:` entry lists, none when it has no `hosts` key (`group_data.get('hosts', [])`). */
  function ListedHosts(entry: GroupEntry): seq<string> {
    entry.hosts.GetOr([])
  }

  /** The outer loop of the merge: the `groups:` entries, in document order. */
  function MergeAll(ix: Index, decls: seq<(string, GroupEntry)>): (ix': Index)
    ensures ix'.hosts.Keys == ix.hosts.Keys
    decreases |decls|
  {
    if decls == [] then ix
    else
      var (g, entry) := decls[|decls| - 1];
      MergeNames(MergeAll(ix, decls[..|decls| - 1]), g, ListedHosts(entry))
  }

  /** The merge keeps both directions of consistency, and with them distinct group lists. */
  lemma MergeMemberKeepsConsistent(ix: Index, g: string, h: string)
    requires Consistent(ix) && GroupsDistinct(ix)
    ensures Consistent(MergeMember(ix, g, h)) && GroupsDistinct(MergeMember(ix, g, h))
  {
    var ix' := MergeMember(ix, g, h);
    if h in ix.hosts && g !in ix.hosts[h].groups {
      assert h !in Members(ix.groups, g);
      forall n, g' | n in ix'.hosts && g' in ix'.hosts[n].groups
        ensures g' in ix'.groups && n in ix'.groups[g']
      {
        if n != h {
          assert ix'.hosts[n] == ix.hosts[n];
        }
      }
      forall g', n | g' in ix'.groups && n in ix'.groups[g']
        ensures n in ix'.hosts && g' in ix'.hosts[n].groups
      {
        if g' == g && n != h {
          assert n in Members(ix.groups, g);
        }
      }
    }
  }

  lemma {:induction false} MergeNamesKeepsConsistent(ix: Index, g: string, names: seq<string>)
    requires Consistent(ix) && GroupsDistinct(ix)
    ensures Consistent(MergeNames(ix, g, names)) && GroupsDistinct(MergeNames(ix, g, names))
    decreases |names|
  {
    if names != [] {
      MergeNamesKeepsConsistent(ix, g, names[..|names| - 1]);
      MergeMemberKeepsConsistent(MergeNames(ix, g, names[..|names| - 1]), g, names[|names| - 1]);
    }
  }

  lemma {:induction false} MergeAllKeepsConsistent(ix: Index, decls: seq<(string, GroupEntry)>)
    requires Consistent(ix) && GroupsDistinct(ix)
    ensures Consistent(MergeAll(ix, decls)) && GroupsDistinct(MergeAll(ix, decls))
    decreases |decls|
  {
    if decls != [] {
      var (g, entry) := decls[|decls| - 1];
      MergeAllKeepsConsistent(ix, decls[..|decls| - 1]);
      MergeNamesKeepsConsistent(MergeAll(ix, decls[..|decls| - 1]), g, ListedHosts(entry));
    }
  }

  /** The merge creates an entry only together with its first member, so no entry is empty. */
  lemma {:induction false} MergeNamesKeepsNoEmptyGroups(ix: Index, g: string, names: seq<string>)
    requires NoEmptyGroups(ix)
    ensures NoEmptyGroups(MergeNames(ix, g, names))
    decreases |names|
  {
    if names != [] {
      MergeNamesKeepsNoEmptyGroups(ix, g, names[..|names| - 1]);
    }
  }

  lemma {:induction false} MergeAllKeepsNoEmptyGroups(ix: Index, decls: seq<(string, GroupEntry)>)
    requires NoEmptyGroups(ix)
    ensures NoEmptyGroups(MergeAll(ix, decls))
    decreases |decls|
  {
    if decls != [] {
      var (g, entry) := decls[|decls| - 1];
      MergeAllKeepsNoEmptyGroups(ix, decls[..|decls| - 1]);
      MergeNamesKeepsNoEmptyGroups(MergeAll(ix, decls[..|decls| - 1]), g, ListedHosts(entry));
    }
  }

  /**
   * A host gains group `g` from the inner loop exactly when it is known and
   * listed; the groups of hosts only grow.
   */
  lemma {:induction false} MergeNamesHostGroups(ix: Index, g: string, names: seq<string>, n: string, g': string)
    requires n in ix.hosts
    ensures g' in MergeNames(ix, g, names).hosts[n].groups <==>
      g' in ix.hosts[n].groups || (g' == g && n in names)
    decreases |names|
  {
    if names != [] {
      var init := names[..|names| - 1];
      MergeNamesHostGroups(ix, g, init, n, g');
      assert names == init + [names[|names| - 1]];
    }
  }

  /** Which groups the whole merge gives a known host: those whose entry lists it. */
  lemma {:induction false} MergeAllHostGroups(ix: Index, decls: seq<(string, GroupEntry)>, n: string, g': string)
    requires n in ix.hosts
    ensures g' in MergeAll(ix, decls).hosts[n].groups <==>
      g' in ix.hosts[n].groups || exists k :: 0 <= k < |decls| && decls[k].0 == g' && n in ListedHosts(decls[k].1)
    decreases |decls|
  {
    if decls != [] {
      var init := decls[..|decls| - 1];
      var (g, entry) := decls[|decls| - 1];
      MergeAllHostGroups(ix, init, n, g');
      MergeNamesHostGroups(MergeAll(ix, init), g, ListedHosts(entry), n, g');
      if exists k :: 0 <= k < |decls| && decls[k].0 == g' && n in ListedHosts(decls[k].1) {
        var k :| 0 <= k < |decls| && decls[k].0 == g' && n in ListedHosts(decls[k].1);
        if k < |init| {
          assert init[k] == decls[k];
        }
      }
      if exists k :: 0 <= k < |init| && init[k].0 == g' && n in ListedHosts(init[k].1) {
        var k :| 0 <= k < |init| && init[k].0 == g' && n in ListedHosts(init[k].1);
        assert decls[k] == init[k];
      }
    }
  }

  /**
   * A group declared under `groups:` gets an index entry from its
   * declaration only if some listed host is known and did not name it yet.
   */
  lemma {:induction false} MergeNamesCreatesEntry(ix: Index, g: string, names: seq<string>)
    ensures g in MergeNames(ix, g, names).groups <==>
      g in ix.groups || exists k :: 0 <= k < |names| && Joins(ix, g, names[k])
    decreases |names|
  {
    if names != [] {
      var init := names[..|names| - 1];
      var h := names[|names| - 1];
      var mid := MergeNames(ix, g, init);
      MergeNamesCreatesEntry(ix, g, init);
      var exInit := exists k :: 0 <= k < |init| && Joins(ix, g, init[k]);
      assert (exists k :: 0 <= k < |names| && Joins(ix, g, names[k])) <==> exInit || Joins(ix, g, h) by {
        if exists k :: 0 <= k < |names| && Joins(ix, g, names[k]) {
          var k :| 0 <= k < |names| && Joins(ix, g, names[k]);
          if k < |init| {
            assert init[k] == names[k];
          }
        }
        if exInit {
          var k :| 0 <= k < |init| && Joins(ix, g, init[k]);
          assert names[k] == init[k];
        }
      }
      if h in ix.hosts {
        MergeNamesHostGroups(ix, g, init, h, g);
        if Joins(ix, g, h) && h in init {
          var k :| 0 <= k < |init| && init[k] == h;
          assert Joins(ix, g, init[k]);
        }
      }
    }
  }

  /**
   * The groups the merge appends to host `n`, which names `have` to begin
   * with: the groups whose declaration lists `n`, in document order, each
   * once and only when the host does not name it yet.
   */
  function Appended(have: seq<string>, decls: seq<(string, GroupEntry)>, n: string): seq<string>
    decreases |decls|
  {
    if decls == [] then []
    else
      var prev := Appended(have, decls[..|decls| - 1], n);
      var (g, entry) := decls[|decls| - 1];
      prev + (if n in ListedHosts(entry) && g !in have + prev then [g] else [])
  }

  /**
   * The names the inner loop appends to the entry of group `g`: each known
   * host that does not name `g` yet, at its first listing, in list order.
   */
  function Joiners(ix: Index, g: string, names: seq<string>): seq<string>
    decreases |names|
  {
    if names == [] then []
    else
      var init := names[..|names| - 1];
      var h := names[|names| - 1];
      Joiners(ix, g, init) + (if Joins(ix, g, h) && h !in init then [h] else [])
  }

  /**
   * The inner loop changes nothing of a known host but its groups, and
   * appends `g` to them once, when the host is listed and does not name `g`.
   */
  lemma {:induction false} MergeNamesHost(ix: Index, g: string, names: seq<string>, n: string)
    requires n in ix.hosts
    ensures MergeNames(ix, g, names).hosts[n] ==
      ix.hosts[n].(groups := ix.hosts[n].groups + (if n in names && g !in ix.hosts[n].groups then [g] else []))
    decreases |names|
  {
    if names != [] {
      var init := names[..|names| - 1];
      var h := names[|names| - 1];
      MergeNamesHost(ix, g, init, n);
      assert names == init + [h];
      assert n in names <==> n in init || n == h;
    }
  }

  /**
   * The inner loop appends to the entry of `g` exactly the joiners, in list
   * order, and leaves every other group entry as it is: neither created,
   * removed nor changed.
   */
  lemma {:induction false} MergeNamesGroup(ix: Index, g: string, names: seq<string>, g': string)
    ensures Members(MergeNames(ix, g, names).groups, g') ==
      Members(ix.groups, g') + (if g' == g then Joiners(ix, g, names) else [])
    ensures g' in ix.groups ==> g' in MergeNames(ix, g, names).groups
    ensures g' != g ==> (g' in MergeNames(ix, g, names).groups <==> g' in ix.groups)
    decreases |names|
  {
    if names != [] {
      var init := names[..|names| - 1];
      var h := names[|names| - 1];
      var mid := MergeNames(ix, g, init);
      MergeNamesGroup(ix, g, init, g');
      if h in ix.hosts {
        MergeNamesHost(ix, g, init, h);
        assert Joins(mid, g, h) <==> Joins(ix, g, h) && h !in init;
      }
      if g' == g && Joins(mid, g, h) {
        assert Members(ix.groups, g) + Joiners(ix, g, init) + [h] == Members(ix.groups, g) + (Joiners(ix, g, init) + [h]);
      }
    }
  }

  /**
   * The whole merge changes nothing of a known host but its groups, and
   * appends to them the groups declared for it, in document order.
   */
  lemma {:induction false} MergeAllHost(ix: Index, decls: seq<(string, GroupEntry)>, n: string)
    requires n in ix.hosts
    ensures MergeAll(ix, decls).hosts[n] ==
      ix.hosts[n].(groups := ix.hosts[n].groups + Appended(ix.hosts[n].groups, decls, n))
    decreases |decls|
  {
    if decls != [] {
      var init := decls[..|decls| - 1];
      var (g, entry) := decls[|decls| - 1];
      var have := ix.hosts[n].groups;
      var prev := Appended(have, init, n);
      MergeAllHost(ix, init, n);
      MergeNamesHost(MergeAll(ix, init), g, ListedHosts(entry), n);
      var more := if n in ListedHosts(entry) && g !in have + prev then [g] else [];
      assert have + prev + more == have + (prev + more);
    }
  }

  /** The whole merge only extends group entries: every old entry is a prefix of the new one. */
  lemma {:induction false} MergeAllGroup(ix: Index, decls: seq<(string, GroupEntry)>, g': string)
    ensures Members(ix.groups, g') <= Members(MergeAll(ix, decls).groups, g')
    ensures g' in ix.groups ==> g' in MergeAll(ix, decls).groups
    decreases |decls|
  {
    if decls != [] {
      var init := decls[..|decls| - 1];
      var (g, entry) := decls[|decls| - 1];
      MergeAllGroup(ix, init, g');
      MergeNamesGroup(MergeAll(ix, init), g, ListedHosts(entry), g');
    }
  }

  // ---------------------------------------------------------------------------
  // from_yaml, after parsing
  // ---------------------------------------------------------------------------

  /** The `hosts:` loop of `from_yaml`: each entry through `Host.from_dict` and `add_host`. */
  function LoadHosts(entries: seq<(string, HostEntry)>): Result<Index, Error>
    decreases |entries|
  {
    if entries == [] then Ok(Empty)
    else match LoadHosts(entries[..|entries| - 1])
      case Err(e) => Err(e)
      case Ok(ix) =>
        var (name, data) := entries[|entries| - 1];
        match Host.FromDict(data)
        case Err(e) => Err(LoadFailed(e))
        case Ok(host) => Ok(AddHostSpec(ix, name, host))
  }

  /**
   * `from_yaml` once the document is parsed: load the hosts, then merge the
   * groups; any failure is reported as an InventoryError.
   */
  function Load(doc: Document): Result<Index, Error> {
    match LoadHosts(doc.hosts.GetOr([]))
    case Err(e) => Err(e)
    case Ok(ix) => Ok(MergeAll(ix, doc.groups.GetOr([])))
  }

  predicate MissingRequired(data: HostEntry) {
    data.hostname.None? || data.username.None?
  }

  predicate UniqueNames(entries: seq<(string, HostEntry)>) {
    forall i, j :: 0 <= i < j < |entries| ==> entries[i].0 != entries[j].0
  }

  /**
   * Loading the hosts fails exactly when some entry lacks `hostname` or
   * `username`, and then with an InventoryError wrapping the KeyError.
   */
  lemma {:induction false} LoadHostsFails(entries: seq<(string, HostEntry)>)
    ensures LoadHosts(entries).Err? <==> exists i :: 0 <= i < |entries| && MissingRequired(entries[i].1)
    ensures LoadHosts(entries).Err? ==>
      LoadHosts(entries).error in {LoadFailed(KeyError("hostname")), LoadFailed(KeyError("username"))}
    decreases |entries|
  {
    if entries != [] {
      var init := entries[..|entries| - 1];
      LoadHostsFails(init);
      if exists i :: 0 <= i < |init| && MissingRequired(init[i].1) {
        var i :| 0 <= i < |init| && MissingRequired(init[i].1);
        assert entries[i] == init[i];
      }
      if exists i :: 0 <= i < |entries| && MissingRequired(entries[i].1) {
        var i :| 0 <= i < |entries| && MissingRequired(entries[i].1);
        if i < |init| {
          assert init[i] == entries[i];
        }
      }
    }
  }

  /** `from_yaml` fails exactly when a host entry lacks a required field, with an InventoryError. */
  lemma LoadFails(doc: Document)
    ensures Load(doc).Err? <==> exists i :: 0 <= i < |doc.hosts.GetOr([])| && MissingRequired(doc.hosts.GetOr([])[i].1)
    ensures Load(doc).Err? ==> Load(doc).error.IsInventoryError()
  {
    LoadHostsFails(doc.hosts.GetOr([]));
  }

  /** The host names of the `hosts:` entries. */
  function Names(entries: seq<(string, HostEntry)>): set<string> {
    set i | 0 <= i < |entries| :: entries[i].0
  }

  lemma NamesSnoc(entries: seq<(string, HostEntry)>)
    requires entries != []
    ensures Names(entries) == Names(entries[..|entries| - 1]) + {entries[|entries| - 1].0}
  {
    var init := entries[..|entries| - 1];
    forall n | n in Names(entries) ensures n in Names(init) + {entries[|entries| - 1].0} {
      var i :| 0 <= i < |entries| && entries[i].0 == n;
      if i < |init| {
        assert init[i] == entries[i];
      }
    }
    forall n | n in Names(init) ensures n in Names(entries) {
      var i :| 0 <= i < |init| && init[i].0 == n;
      assert entries[i] == init[i];
    }
  }

  /** A successful load of the hosts knows exactly the names of the entries. */
  lemma {:induction false} LoadHostsKeys(entries: seq<(string, HostEntry)>)
    requires LoadHosts(entries).Ok?
    ensures LoadHosts(entries).value.hosts.Keys == Names(entries)
    decreases |entries|
  {
    if entries != [] {
      LoadHostsKeys(entries[..|entries| - 1]);
      NamesSnoc(entries);
    }
  }

  /** A successful load of the hosts is a successful load of all but the last entry, then `add_host` of the last. */
  lemma LoadHostsLast(entries: seq<(string, HostEntry)>)
    requires entries != [] && LoadHosts(entries).Ok?
    ensures var (name, data) := entries[|entries| - 1];
      && LoadHosts(entries[..|entries| - 1]).Ok? && Host.FromDict(data).Ok?
      && LoadHosts(entries).value == AddHostSpec(LoadHosts(entries[..|entries| - 1]).value, name, Host.FromDict(data).value)
  {
  }

  /** With distinct names, each loaded host is the one `Host.from_dict` builds from its entry. */
  lemma {:induction false} LoadHostsHosts(entries: seq<(string, HostEntry)>)
    requires UniqueNames(entries)
    requires LoadHosts(entries).Ok?
    ensures forall i :: 0 <= i < |entries| ==>
      && entries[i].0 in LoadHosts(entries).value.hosts
      && Host.FromDict(entries[i].1) == Ok(LoadHosts(entries).value.hosts[entries[i].0])
    decreases |entries|
  {
    if entries != [] {
      var init := entries[..|entries| - 1];
      var (name, data) := entries[|entries| - 1];
      LoadHostsLast(entries);
      assert UniqueNames(init);
      LoadHostsHosts(init);
      var ix0 := LoadHosts(init).value;
      var host := Host.FromDict(data).value;
      var hosts := LoadHosts(entries).value.hosts;
      assert hosts == ix0.hosts[name := host];
      forall i | 0 <= i < |entries|
        ensures entries[i].0 in hosts && Host.FromDict(entries[i].1) == Ok(hosts[entries[i].0])
      {
        if i < |init| {
          assert entries[i] == init[i] && init[i].0 != name;
        }
      }
    }
  }

  /** Loading hosts with distinct names yields a consistent index without duplicate members. */
  lemma {:induction false} LoadHostsConsistent(entries: seq<(string, HostEntry)>)
    requires UniqueNames(entries)
    requires LoadHosts(entries).Ok?
    ensures Consistent(LoadHosts(entries).value) && GroupsDistinct(LoadHosts(entries).value)
    decreases |entries|
  {
    if entries != [] {
      var init := entries[..|entries| - 1];
      var (name, data) := entries[|entries| - 1];
      assert UniqueNames(init);
      LoadHostsConsistent(init);
      LoadHostsKeys(init);
      var ix := LoadHosts(init).value;
      var host := Host.FromDict(data).value;
      assert name !in Names(init);
      AddHostKeepsConsistent(ix, name, host);
      AddHostKeepsGroupsDistinct(ix, name, host);
    }
  }

  /** A successful load of the hosts leaves no group entry empty. */
  lemma {:induction false} LoadHostsNoEmptyGroups(entries: seq<(string, HostEntry)>)
    requires LoadHosts(entries).Ok?
    ensures NoEmptyGroups(LoadHosts(entries).value)
    decreases |entries|
  {
    if entries != [] {
      var init := entries[..|entries| - 1];
      var (name, data) := entries[|entries| - 1];
      LoadHostsNoEmptyGroups(init);
      AddHostKeepsNoEmptyGroups(LoadHosts(init).value, name, Host.FromDict(data).value);
    }
  }

  /** `doc` makes host `n` a member of group `g`: from the host's own entry or from a group entry. */
  predicate Declares(doc: Document, n: string, g: string) {
    var entries := doc.hosts.GetOr([]);
    var decls := doc.groups.GetOr([]);
    exists i :: 0 <= i < |entries| && entries[i].0 == n &&
      (|| g in entries[i].1.groups.GetOr([])
       || exists k :: 0 <= k < |decls| && decls[k].0 == g && n in ListedHosts(decls[k].1))
  }

  /**
   * After a load of a document with distinct host names, the two maps agree
   * in both directions, no group lists a host twice, and a host belongs to a
   * group (in either map) exactly when the document says so — in the host's
   * own `groups` list or in the group's `hosts` list. A group has an entry
   * exactly when the document puts some host in it, so a group the document
   * only mentions, or never mentions, has none.
   */
  lemma LoadConsistent(doc: Document)
    requires UniqueNames(doc.hosts.GetOr([]))
    requires Load(doc).Ok?
    ensures var ix := Load(doc).value;
      && Consistent(ix) && GroupsDistinct(ix) && MembersKnown(ix)
      && (forall n, g :: n in ix.hosts && g in ix.hosts[n].groups <==> Declares(doc, n, g))
      && (forall n, g :: g in ix.groups && n in ix.groups[g] <==> Declares(doc, n, g))
      && (forall g :: g in ix.groups <==> exists n :: Declares(doc, n, g))
  {
    var entries := doc.hosts.GetOr([]);
    LoadHostsConsistent(entries);
    MergeAllKeepsConsistent(LoadHosts(entries).value, doc.groups.GetOr([]));
    LoadHostsNoEmptyGroups(entries);
    MergeAllKeepsNoEmptyGroups(LoadHosts(entries).value, doc.groups.GetOr([]));
    var ix := Load(doc).value;
    forall n, g
      ensures n in ix.hosts && g in ix.hosts[n].groups <==> Declares(doc, n, g)
    {
      LoadHostGroups(doc, n, g);
    }
    forall g | g in ix.groups
      ensures exists n :: Declares(doc, n, g)
    {
      var n := ix.groups[g][0];
      assert n in ix.hosts && g in ix.hosts[n].groups;
      LoadHostGroups(doc, n, g);
    }
  }

  /** The membership part of `LoadConsistent`, for one host and one group. */
  lemma LoadHostGroups(doc: Document, n: string, g: string)
    requires UniqueNames(doc.hosts.GetOr([]))
    requires Load(doc).Ok?
    ensures n in Load(doc).value.hosts && g in Load(doc).value.hosts[n].groups <==> Declares(doc, n, g)
  {
    var entries := doc.hosts.GetOr([]);
    var decls := doc.groups.GetOr([]);
    LoadHostsKeys(entries);
    LoadHostsHosts(entries);
    var ix0 := LoadHosts(entries).value;
    if n in ix0.hosts {
      MergeAllHostGroups(ix0, decls, n, g);
      var i :| 0 <= i < |entries| && entries[i].0 == n;
      assert Host.FromDict(entries[i].1) == Ok(ix0.hosts[n]);
      forall j | 0 <= j < |entries| && entries[j].0 == n
        ensures j == i
      {
      }
    }
  }

  /**
   * After a load of a document with distinct host names, each host is the
   * one `Host.from_dict` builds from its entry, with the groups that the
   * `groups:` entries declare for it appended in document order.
   */
  lemma LoadHost(doc: Document, i: int)
    requires UniqueNames(doc.hosts.GetOr([]))
    requires Load(doc).Ok?
    requires 0 <= i < |doc.hosts.GetOr([])|
    ensures var (n, data) := doc.hosts.GetOr([])[i];
      var own := Host.FromDict(data);
      && own.Ok? && n in Load(doc).value.hosts
      && Load(doc).value.hosts[n] ==
           own.value.(groups := own.value.groups + Appended(own.value.groups, doc.groups.GetOr([]), n))
  {
    var entries := doc.hosts.GetOr([]);
    LoadHostsHosts(entries);
    MergeAllHost(LoadHosts(entries).value, doc.groups.GetOr([]), entries[i].0);
  }

  // ---------------------------------------------------------------------------
  // The inventory object
  // ---------------------------------------------------------------------------

  class Inventory {
    var hosts: map<string, Host>
    var groups: map<string, seq<string>>

    /** The state as a value. */
    function Snapshot(): Index
      reads this
    {
      Index(hosts, groups)
    }

    /** A new inventory is empty. */
    constructor ()
      ensures Snapshot() == Empty
    {
      hosts := map[];
      groups := map[];
    }

    /** `add_host`: store the host, then register it under each of its groups. */
    method AddHost(name: string, host: Host)
      modifies this
      ensures Snapshot() == AddHostSpec(old(Snapshot()), name, host)
      ensures GetHost(name) == Ok(host)
      ensures forall g :: g in host.groups ==> g in groups && name in groups[g]
    {
      hosts := hosts[name := host];
      for i := 0 to |host.groups|
        invariant hosts == old(hosts)[name := host]
        invariant groups == Register(old(groups), name, host.groups[..i])
      {
        var group := host.groups[i];
        ghost var prev := groups;
        if group !in groups {
          groups := groups[group := []];
        }
        if name !in groups[group] {
          groups := groups[group := groups[group] + [name]];
        }
        assert groups == RegisterOne(prev, name, group);
        RegisterPrefix(old(groups), name, host.groups, i);
      }
      assert host.groups[..|host.groups|] == host.groups;
      AddHostEffect(old(Snapshot()), name, host);
    }

    /** `get_host`: the stored host, or an InventoryError when the name is unknown. */
    function GetHost(name: string): (r: Result<Host, Error>)
      reads this
      ensures r.Ok? <==> name in hosts
      ensures r.Ok? ==> r.value == hosts[name]
      ensures r.Err? ==> r.error == HostNotFound(name) && r.error.IsInventoryError()
    {
      if name !in hosts then Err(HostNotFound(name)) else Ok(hosts[name])
    }

    /**
     * `get_group_hosts`: one host per listed name, in list order, or an
     * InventoryError when the group is unknown. When every listed name is a
     * known host (the invariant `MembersKnown`), the lookup of the members
     * cannot fail.
     */
    function GetGroupHosts(group: string): (r: Result<seq<Host>, Error>)
      reads this
      ensures group !in groups ==> r == Err(GroupNotFound(group))
      ensures r.Ok? ==>
        && group in groups
        && |r.value| == |groups[group]|
        && (forall k :: 0 <= k < |groups[group]| ==> groups[group][k] in hosts && r.value[k] == hosts[groups[group][k]])
      ensures MembersKnown(Snapshot()) ==> (r.Ok? <==> group in groups)
    {
      if group !in groups then Err(GroupNotFound(group)) else HostsOf(hosts, groups[group])
    }

    /** The group merge of `from_yaml`, over the `groups:` entries in document order. */
    method MergeGroups(decls: seq<(string, GroupEntry)>)
      modifies this
      ensures Snapshot() == MergeAll(old(Snapshot()), decls)
    {
      for i := 0 to |decls|
        invariant Snapshot() == MergeAll(old(Snapshot()), decls[..i])
      {
        var (groupName, groupData) := decls[i];
        MergeGroup(groupName, ListedHosts(groupData));
        assert decls[..i + 1][..i] == decls[..i];
      }
      assert decls[..|decls|] == decls;
    }

    /** The inner loop of the merge: the hosts listed under one group, in order. */
    method MergeGroup(groupName: string, names: seq<string>)
      modifies this
      ensures Snapshot() == MergeNames(old(Snapshot()), groupName, names)
    {
      for j := 0 to |names|
        invariant Snapshot() == MergeNames(old(Snapshot()), groupName, names[..j])
      {
        var hostName := names[j];
        ghost var prev := Snapshot();
        if hostName in hosts {
          if groupName !in hosts[hostName].groups {
            assert Joins(prev, groupName, hostName);
            hosts := hosts[hostName := hosts[hostName].(groups := hosts[hostName].groups + [groupName])];
            if groupName !in groups {
              groups := groups[groupName := []];
            }
            groups := groups[groupName := groups[groupName] + [hostName]];
          }
        }
        assert Snapshot() == MergeMember(prev, groupName, hostName);
        assert names[..j + 1][..j] == names[..j];
      }
      assert names[..|names|] == names;
    }

    /**
     * `from_yaml` on a parsed document: a fresh inventory holding exactly
     * what `Load` describes, or the error `Load` reports.
     */
    static method FromYaml(doc: Document) returns (r: Result<Inventory, Error>)
      ensures r.Ok? <==> Load(doc).Ok?
      ensures r.Ok? ==> fresh(r.value) && r.value.Snapshot() == Load(doc).value
      ensures r.Err? ==> r.error == Load(doc).error
    {
      var inventory := new Inventory();
      var entries := doc.hosts.GetOr([]);
      for i := 0 to |entries|
        invariant fresh(inventory)
        invariant LoadHosts(entries[..i]) == Ok(inventory.Snapshot())
      {
        var (name, data) := entries[i];
        assert entries[..i + 1][..i] == entries[..i];
        var host := Host.FromDict(data);
        if host.Err? {
          LoadHostsFailureSticks(entries, i + 1);
          return Err(LoadFailed(host.error));
        }
        inventory.AddHost(name, host.value);
      }
      assert entries[..|entries|] == entries;
      inventory.MergeGroups(doc.groups.GetOr([]));
      return Ok(inventory);
    }
  }

  /** Once a prefix of the entries fails to load, the whole list fails with the same error. */
  lemma {:induction false} LoadHostsFailureSticks(entries: seq<(string, HostEntry)>, k: nat)
    requires k <= |entries|
    requires LoadHosts(entries[..k]).Err?
    ensures LoadHosts(entries) == LoadHosts(entries[..k])
    decreases |entries| - k
  {
    if k < |entries| {
      assert entries[..k + 1][..k] == entries[..k];
      LoadHostsFailureSticks(entries, k + 1);
    } else {
      assert entries[..k] == entries;
    }
  }
}
