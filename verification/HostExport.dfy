/** Resolving hosts for export: what a host inherits from its groups, and the hosts it jumps through. */
module HostExport {
  import opened Basics
  import opened Text
  import opened Aliases

  datatype Host = Host(id: string, groupId: Option<string>, labelText: string, protocol: string, hostname: string,
                       port: int, username: Option<string>, authType: Option<string>, keyId: Option<string>,
                       jumpChain: Option<seq<string>>)

  datatype Group = Group(id: string, parentId: Option<string>, name: string, username: Option<string>,
                         authType: Option<string>, keyId: Option<string>, jumpChain: Option<seq<string>>)

  datatype SshKey = SshKey(id: string, labelText: string)

  datatype ExportHost = ExportHost(alias: string, labelText: string, group: Option<string>, protocol: string,
                                   hostname: string, port: int, username: Option<string>,
                                   authType: Option<string>, keyLabel: Option<string>, jumpAliases: seq<string>)

  // ---- Look-up tables ----

  /** The table of keys and values in order; a later key replaces an earlier one. */
  function Table<V>(keys: seq<string>, values: seq<V>): map<string, V>
    requires |keys| == |values|
  {
    if keys == [] then map[]
    else
      var last := |keys| - 1;
      Table(keys[..last], values[..last])[keys[last] := values[last]]
  }

  lemma {:induction false} TableHolds<V>(keys: seq<string>, values: seq<V>, key: string) returns (i: nat)
    requires |keys| == |values|
    ensures key in Table(keys, values) <==> key in keys
    ensures key in keys ==>
              i < |keys| && keys[i] == key && values[i] == Table(keys, values)[key] && key !in keys[i + 1..]
  {
    if keys == [] {
      i := 0;
    } else {
      var last := |keys| - 1;
      assert keys == keys[..last] + [keys[last]];
      if keys[last] == key {
        i := last;
        assert keys[last + 1..] == [];
      } else {
        i := TableHolds(keys[..last], values[..last], key);
        if key in keys {
          assert keys[i + 1..] == keys[..last][i + 1..] + [keys[last]];
        }
      }
    }
  }

  // ---- The chain of groups ----

  /** An id that names a group. */
  predicate Live(id: Option<string>, byId: map<string, Group>) {
    id.Some? && id.value != "" && id.value in byId
  }

  function ChainFrom(current: Option<string>, seen: set<string>, byId: map<string, Group>): seq<Group>
    decreases |byId.Keys - seen|
  {
    if !Live(current, byId) || current.value in seen then []
    else
      SmallerRest(byId.Keys, seen, current.value);
      [byId[current.value]] + ChainFrom(byId[current.value].parentId, seen + {current.value}, byId)
  }

  lemma SmallerRest(all: set<string>, seen: set<string>, id: string)
    requires id in all && id !in seen
    ensures |all - (seen + {id})| < |all - seen|
  {
    assert all - seen == (all - (seen + {id})) + {id};
  }

  method GroupChain(groupId: Option<string>, byId: map<string, Group>) returns (chain: seq<Group>)
    ensures chain == ChainFrom(groupId, {}, byId)
  {
    chain := [];
    var seen: set<string> := {};
    var current := groupId;
    while current.Some? && current.value != "" && current.value !in seen
      invariant chain + ChainFrom(current, seen, byId) == ChainFrom(groupId, {}, byId)
      decreases |byId.Keys - seen|
    {
      if current.value !in byId {
        break;
      }
      SmallerRest(byId.Keys, seen, current.value);
      ghost var rest := ChainFrom(byId[current.value].parentId, seen + {current.value}, byId);
      assert chain + ([byId[current.value]] + rest) == (chain + [byId[current.value]]) + rest;
      seen := seen + {current.value};
      chain := chain + [byId[current.value]];
      current := byId[current.value].parentId;
    }
    assert ChainFrom(current, seen, byId) == [];
  }

  /** The k-th ancestor with no guard against cycles: it may go round forever. */
  function Ancestor(start: Option<string>, byId: map<string, Group>, k: nat): Option<string>
    decreases k
  {
    if !Live(start, byId) then None
    else if k == 0 then start
    else Ancestor(byId[start.value].parentId, byId, k - 1)
  }

  lemma {:induction false} AncestorIsLive(start: Option<string>, byId: map<string, Group>, k: nat)
    ensures Ancestor(start, byId, k).Some? ==> Live(Ancestor(start, byId, k), byId)
    decreases k
  {
    if Live(start, byId) && k > 0 {
      AncestorIsLive(byId[start.value].parentId, byId, k - 1);
    }
  }

  /** The i-th group of the chain is the i-th ancestor. */
  lemma {:induction false} ChainIsAncestors(current: Option<string>, seen: set<string>,
                                            byId: map<string, Group>, i: nat)
    requires i < |ChainFrom(current, seen, byId)|
    ensures Live(Ancestor(current, byId, i), byId)
    ensures ChainFrom(current, seen, byId)[i] == byId[Ancestor(current, byId, i).value]
    decreases i
  {
    if i > 0 {
      ChainIsAncestors(byId[current.value].parentId, seen + {current.value}, byId, i - 1);
    }
  }

  /** The groups already seen lead only to each other or to the group the walk is at. */
  ghost predicate Closed(seen: set<string>, current: Option<string>, byId: map<string, Group>) {
    forall id :: id in seen ==>
      && Live(Some(id), byId)
      && var up := byId[id].parentId; Live(up, byId) ==> up.value in seen || up == current
  }

  lemma {:induction false} ClosedWalk(seen: set<string>, id: string, current: Option<string>,
                                      byId: map<string, Group>, k: nat)
    requires Closed(seen, current, byId) && id in seen && (Live(current, byId) ==> current.value in seen)
    ensures Ancestor(Some(id), byId, k).Some? ==> Ancestor(Some(id), byId, k).value in seen
    decreases k
  {
    var up := byId[id].parentId;
    if k > 0 && Live(up, byId) {
      assert up == Some(up.value);
      ClosedWalk(seen, up.value, current, byId, k - 1);
    }
  }

  /** The guard against cycles loses no ancestor: each is in the chain or was seen before. */
  lemma {:induction false} ChainCovers(current: Option<string>, seen: set<string>, byId: map<string, Group>, k: nat)
    requires Closed(seen, current, byId) && Ancestor(current, byId, k).Some?
    ensures var id := Ancestor(current, byId, k).value;
            id in byId && (id in seen || byId[id] in ChainFrom(current, seen, byId))
    decreases k
  {
    AncestorIsLive(current, byId, k);
    if current.value in seen {
      assert current == Some(current.value);
      ClosedWalk(seen, current.value, current, byId, k);
    } else if k > 0 {
      var up := byId[current.value].parentId;
      var wider := seen + {current.value};
      assert Closed(wider, up, byId);
      ChainCovers(up, wider, byId, k - 1);
    }
  }

  // ---- Inheritance ----

  /** The value of the nearest group that has one. */
  function FirstSome<T>(chain: seq<Group>, pick: Group -> Option<T>): Option<T> {
    if chain == [] then None
    else if pick(chain[0]).Some? then pick(chain[0])
    else FirstSome(chain[1..], pick)
  }

  lemma {:induction false} FirstSomeIsFirst<T>(chain: seq<Group>, pick: Group -> Option<T>) returns (k: nat)
    ensures k <= |chain| && forall j :: 0 <= j < k ==> pick(chain[j]) == None
    ensures FirstSome(chain, pick) == if k < |chain| then pick(chain[k]) else None
    ensures k < |chain| ==> pick(chain[k]).Some?
  {
    if chain == [] {
      k := 0;
    } else if pick(chain[0]).Some? {
      k := 0;
    } else {
      k := FirstSomeIsFirst(chain[1..], pick);
      k := k + 1;
    }
  }

  /** What the k-th ancestor sets. */
  function SetBy<T>(start: Option<string>, byId: map<string, Group>, pick: Group -> Option<T>, k: nat): Option<T> {
    var id := Ancestor(start, byId, k);
    if id.Some? && id.value in byId then pick(byId[id.value]) else None
  }

  /** `value` is set by an ancestor and by none nearer. */
  ghost predicate SetNearest<T(!new)>(start: Option<string>, byId: map<string, Group>, pick: Group -> Option<T>,
                                      value: Option<T>, k: nat)
  {
    && value.Some? && SetBy(start, byId, pick, k) == value
    && forall j: nat :: j < k ==> SetBy(start, byId, pick, j) == None
  }

  lemma {:induction false} ChainSets<T(!new)>(start: Option<string>, byId: map<string, Group>,
                                              pick: Group -> Option<T>, i: nat)
    requires i < |ChainFrom(start, {}, byId)|
    ensures SetBy(start, byId, pick, i) == pick(ChainFrom(start, {}, byId)[i])
  {
    ChainIsAncestors(start, {}, byId, i);
  }

  /** A host inherits what the nearest ancestor sets, over the whole walk to the root or round a cycle. */
  lemma NearestGroupWins<T(!new)>(start: Option<string>, byId: map<string, Group>, pick: Group -> Option<T>)
    ensures var got := FirstSome(ChainFrom(start, {}, byId), pick);
            && (got.None? <==> forall k: nat :: SetBy(start, byId, pick, k) == None)
            && (got.Some? ==> exists k: nat :: SetNearest(start, byId, pick, got, k))
  {
    var chain := ChainFrom(start, {}, byId);
    var k := FirstSomeIsFirst(chain, pick);
    forall i: nat | i < |chain|
      ensures SetBy(start, byId, pick, i) == pick(chain[i])
    {
      ChainSets(start, byId, pick, i);
    }
    if k < |chain| {
      assert SetNearest(start, byId, pick, pick(chain[k]), k);
    } else {
      forall n: nat
        ensures SetBy(start, byId, pick, n) == None
      {
        NothingSet(start, byId, pick, n);
      }
    }
  }

  lemma NothingSet<T(!new)>(start: Option<string>, byId: map<string, Group>, pick: Group -> Option<T>, n: nat)
    requires var chain := ChainFrom(start, {}, byId); forall j :: 0 <= j < |chain| ==> pick(chain[j]) == None
    ensures SetBy(start, byId, pick, n) == None
  {
    if Ancestor(start, byId, n).Some? {
      ChainCovers(start, {}, byId, n);
    }
  }

  // ---- The rows of an export ----

  function GroupUsername(g: Group): Option<string> { g.username }
  function GroupAuthType(g: Group): Option<string> { g.authType }
  function GroupKeyId(g: Group): Option<string> { g.keyId }
  function GroupJumps(g: Group): Option<seq<string>> { g.jumpChain }

  /** Group names from the root down. */
  function PathNames(chain: seq<Group>): seq<string> {
    if chain == [] then [] else PathNames(chain[1..]) + [chain[0].name]
  }

  /** The hops that are kept: not the host itself, and still among the hosts. */
  function KeptHops<V>(ids: seq<string>, self: string, known: map<string, V>): seq<string> {
    if ids == [] then []
    else (if ids[0] != self && ids[0] in known then [ids[0]] else []) + KeptHops(ids[1..], self, known)
  }

  function JumpAliases(ids: seq<string>, self: string, aliasById: map<string, string>): seq<string> {
    if ids == [] then []
    else
      (if ids[0] != self && ids[0] in aliasById then [aliasById[ids[0]]] else [])
      + JumpAliases(ids[1..], self, aliasById)
  }

  function KeyLabel(keyId: Option<string>, labels: map<string, string>): Option<string> {
    if keyId.Some? && keyId.value != "" && keyId.value in labels then Some(labels[keyId.value]) else None
  }

  function JumpIds(host: Host, chain: seq<Group>): seq<string> {
    var ids := OrElse(host.jumpChain, FirstSome(chain, GroupJumps));
    if ids.Some? then ids.value else []
  }

  function RowOf(host: Host, alias: string, chain: seq<Group>, keyLabels: map<string, string>,
                 aliasById: map<string, string>): ExportHost
  {
    ExportHost(alias, host.labelText,
               if chain == [] then None else Some(Join(PathNames(chain), '/')),
               host.protocol, host.hostname, host.port,
               OrElse(host.username, FirstSome(chain, GroupUsername)),
               OrElse(host.authType, FirstSome(chain, GroupAuthType)),
               KeyLabel(OrElse(host.keyId, FirstSome(chain, GroupKeyId)), keyLabels),
               JumpAliases(JumpIds(host, chain), host.id, aliasById))
  }

  function HostIds(hosts: seq<Host>): seq<string> {
    seq(|hosts|, i requires 0 <= i < |hosts| => hosts[i].id)
  }

  function HostLabels(hosts: seq<Host>): seq<string> {
    seq(|hosts|, i requires 0 <= i < |hosts| => hosts[i].labelText)
  }

  function GroupTable(groups: seq<Group>): map<string, Group> {
    Table(seq(|groups|, i requires 0 <= i < |groups| => groups[i].id), groups)
  }

  function KeyTable(keys: seq<SshKey>): map<string, string> {
    Table(seq(|keys|, i requires 0 <= i < |keys| => keys[i].id),
          seq(|keys|, i requires 0 <= i < |keys| => keys[i].labelText))
  }

  function RowAliases(rows: seq<ExportHost>): seq<string> {
    seq(|rows|, i requires 0 <= i < |rows| => rows[i].alias)
  }

  /** The rows that an export of the hosts consists of. */
  ghost predicate Exported(hosts: seq<Host>, groups: seq<Group>, keys: seq<SshKey>, sshAlias: string -> string,
                           rows: seq<ExportHost>)
  {
    && |rows| == |hosts|
    && Assigned(Bases(HostLabels(hosts), sshAlias), RowAliases(rows))
    && forall i :: 0 <= i < |hosts| ==>
         rows[i] == RowOf(hosts[i], rows[i].alias, ChainFrom(hosts[i].groupId, {}, GroupTable(groups)),
                          KeyTable(keys), Table(HostIds(hosts), RowAliases(rows)))
  }

  method ResolveForExport(hosts: seq<Host>, groups: seq<Group>, keys: seq<SshKey>, sshAlias: string -> string)
    returns (rows: seq<ExportHost>)
    ensures Exported(hosts, groups, keys, sshAlias, rows)
  {
    var groupById := GroupTable(groups);
    var keyLabelById := KeyTable(keys);
    var aliases := UniqueAliases(HostLabels(hosts), sshAlias);
    var aliasByHostId := Table(HostIds(hosts), aliases);
    rows := [];
    for i := 0 to |hosts|
      invariant |rows| == i
      invariant forall j :: 0 <= j < i ==> rows[j].alias == aliases[j]
      invariant forall j :: 0 <= j < i ==>
                  rows[j] == RowOf(hosts[j], aliases[j], ChainFrom(hosts[j].groupId, {}, groupById),
                                   keyLabelById, aliasByHostId)
    {
      var chain := GroupChain(hosts[i].groupId, groupById);
      rows := rows + [RowOf(hosts[i], aliases[i], chain, keyLabelById, aliasByHostId)];
    }
    assert RowAliases(rows) == aliases;
  }

  // ---- Jump hosts ----

  /** The rows named by the aliases, in order. */
  ghost predicate Names(rows: seq<ExportHost>, js: seq<nat>, aliases: seq<string>) {
    && |js| == |aliases|
    && forall k :: 0 <= k < |js| ==> js[k] < |rows| && rows[js[k]].alias == aliases[k]
  }

  ghost predicate HaveIds(hosts: seq<Host>, js: seq<nat>, ids: seq<string>) {
    && |js| == |ids|
    && forall k :: 0 <= k < |js| ==> js[k] < |hosts| && hosts[js[k]].id == ids[k]
  }

  lemma HopIsRow(hosts: seq<Host>, rows: seq<ExportHost>, id: string) returns (i: nat)
    requires |rows| == |hosts|
    ensures var table := Table(HostIds(hosts), RowAliases(rows));
            id in table ==> i < |hosts| && hosts[i].id == id && rows[i].alias == table[id]
  {
    i := TableHolds(HostIds(hosts), RowAliases(rows), id);
  }

  lemma OneMoreRow(hosts: seq<Host>, rows: seq<ExportHost>, js: seq<nat>, aliases: seq<string>, ids: seq<string>,
                   i: nat)
    requires |rows| == |hosts| && Names(rows, js, aliases) && HaveIds(hosts, js, ids) && i < |hosts|
    ensures Names(rows, [i] + js, [rows[i].alias] + aliases)
    ensures HaveIds(hosts, [i] + js, [hosts[i].id] + ids)
  {
  }

  /** `table` is the look-up table of aliases by host id. */
  lemma {:induction false} JumpsAreRows(hosts: seq<Host>, rows: seq<ExportHost>, ids: seq<string>, self: string,
                                        table: map<string, string>) returns (js: seq<nat>)
    requires |rows| == |hosts| && table == Table(HostIds(hosts), RowAliases(rows))
    ensures Names(rows, js, JumpAliases(ids, self, table))
    ensures HaveIds(hosts, js, KeptHops(ids, self, table))
  {
    if ids == [] {
      js := [];
    } else {
      js := JumpsAreRows(hosts, rows, ids[1..], self, table);
      if ids[0] != self && ids[0] in table {
        var i := HopIsRow(hosts, rows, ids[0]);
        OneMoreRow(hosts, rows, js, JumpAliases(ids[1..], self, table), KeptHops(ids[1..], self, table), i);
        js := [i] + js;
      }
    }
  }

  /** The jump aliases of a row name, each exactly one row, the hosts of the jump chain in their order,
      without the host itself and without hosts that are gone. */
  lemma JumpsNameOneHostEach(hosts: seq<Host>, groups: seq<Group>, keys: seq<SshKey>,
                             sshAlias: string -> string, rows: seq<ExportHost>, i: nat) returns (js: seq<nat>)
    requires Exported(hosts, groups, keys, sshAlias, rows) && i < |hosts|
    ensures Names(rows, js, rows[i].jumpAliases)
    ensures forall k, j :: 0 <= k < |js| && 0 <= j < |rows| && rows[j].alias == rows[i].jumpAliases[k] ==> j == js[k]
    ensures var chain := ChainFrom(hosts[i].groupId, {}, GroupTable(groups));
            HaveIds(hosts, js, KeptHops(JumpIds(hosts[i], chain), hosts[i].id, Table(HostIds(hosts), RowAliases(rows))))
  {
    var chain := ChainFrom(hosts[i].groupId, {}, GroupTable(groups));
    var aliases := RowAliases(rows);
    js := JumpsAreRows(hosts, rows, JumpIds(hosts[i], chain), hosts[i].id, Table(HostIds(hosts), aliases));
    AliasesAreDistinct(Bases(HostLabels(hosts), sshAlias), aliases);
    forall k, j | 0 <= k < |js| && 0 <= j < |rows| && rows[j].alias == rows[i].jumpAliases[k]
      ensures j == js[k]
    {
      assert aliases[j] == aliases[js[k]];
    }
  }

  /** A hop is kept exactly when it is another host of the export. */
  lemma KeptExactly(hosts: seq<Host>, rows: seq<ExportHost>, ids: seq<string>, self: string, id: string)
    requires |rows| == |hosts|
    ensures id in KeptHops(ids, self, Table(HostIds(hosts), RowAliases(rows))) <==>
              id in ids && id != self && exists j :: 0 <= j < |hosts| && hosts[j].id == id
  {
    var table := Table(HostIds(hosts), RowAliases(rows));
    var i := TableHolds(HostIds(hosts), RowAliases(rows), id);
    assert id in HostIds(hosts) <==> exists j :: 0 <= j < |hosts| && hosts[j].id == id by {
      if j :| 0 <= j < |hosts| && hosts[j].id == id {
        assert HostIds(hosts)[j] == id;
      }
    }
    KeptAmong(ids, self, table, id);
  }

  lemma {:induction false} KeptAmong<V>(ids: seq<string>, self: string, known: map<string, V>, id: string)
    ensures id in KeptHops(ids, self, known) <==> id in ids && id != self && id in known
  {
    if ids != [] {
      KeptAmong(ids[1..], self, known, id);
      assert id in ids <==> id == ids[0] || id in ids[1..];
    }
  }

  /** `got` is the host's own value or what the nearest ancestor group sets, and nothing if none does. */
  ghost predicate Inherits<T(!new)>(start: Option<string>, byId: map<string, Group>, own: Option<T>,
                                    pick: Group -> Option<T>, got: Option<T>)
  {
    if own.Some? then got == own
    else if got.Some? then exists k: nat :: SetNearest(start, byId, pick, got, k)
    else forall k: nat :: SetBy(start, byId, pick, k) == None
  }

  lemma OwnOrNearest<T(!new)>(start: Option<string>, byId: map<string, Group>, own: Option<T>, pick: Group -> Option<T>)
    ensures Inherits(start, byId, own, pick, OrElse(own, FirstSome(ChainFrom(start, {}, byId), pick)))
  {
    NearestGroupWins(start, byId, pick);
  }

  /** The login and the route of a row are the host's own or inherited from the nearest group. */
  lemma RowsInherit(hosts: seq<Host>, groups: seq<Group>, keys: seq<SshKey>, sshAlias: string -> string,
                    rows: seq<ExportHost>, i: nat) returns (keyId: Option<string>, jumps: Option<seq<string>>)
    requires Exported(hosts, groups, keys, sshAlias, rows) && i < |hosts|
    ensures var host, byId := hosts[i], GroupTable(groups);
            && Inherits(host.groupId, byId, host.username, GroupUsername, rows[i].username)
            && Inherits(host.groupId, byId, host.authType, GroupAuthType, rows[i].authType)
            && Inherits(host.groupId, byId, host.keyId, GroupKeyId, keyId)
            && rows[i].keyLabel == KeyLabel(keyId, KeyTable(keys))
            && Inherits(host.groupId, byId, host.jumpChain, GroupJumps, jumps)
            && rows[i].jumpAliases == JumpAliases(if jumps.Some? then jumps.value else [], host.id,
                                                  Table(HostIds(hosts), RowAliases(rows)))
    ensures forall g: Group :: GroupUsername(g) == g.username && GroupAuthType(g) == g.authType
                               && GroupKeyId(g) == g.keyId && GroupJumps(g) == g.jumpChain
  {
    var host, byId := hosts[i], GroupTable(groups);
    var chain := ChainFrom(host.groupId, {}, byId);
    OwnOrNearest(host.groupId, byId, host.username, GroupUsername);
    OwnOrNearest(host.groupId, byId, host.authType, GroupAuthType);
    OwnOrNearest(host.groupId, byId, host.keyId, GroupKeyId);
    OwnOrNearest(host.groupId, byId, host.jumpChain, GroupJumps);
    keyId := OrElse(host.keyId, FirstSome(chain, GroupKeyId));
    jumps := OrElse(host.jumpChain, FirstSome(chain, GroupJumps));
  }

  /** The path of a row lists its groups from the root down. */
  lemma {:induction false} PathReadsFromRoot(start: Option<string>, byId: map<string, Group>, i: nat)
    requires i < |ChainFrom(start, {}, byId)|
    ensures var names := PathNames(ChainFrom(start, {}, byId));
            && |names| == |ChainFrom(start, {}, byId)|
            && Live(Ancestor(start, byId, i), byId)
            && names[|names| - 1 - i] == byId[Ancestor(start, byId, i).value].name
  {
    ChainIsAncestors(start, {}, byId, i);
    NamesAreReversed(ChainFrom(start, {}, byId), i);
  }

  lemma {:induction false} NamesAreReversed(chain: seq<Group>, i: nat)
    requires i < |chain|
    ensures |PathNames(chain)| == |chain| && PathNames(chain)[|chain| - 1 - i] == chain[i].name
  {
    if |chain| > 1 {
      NamesAreReversed(chain[1..], if i == 0 then 0 else i - 1);
    }
  }

  // ---- The rest of a row ----

  lemma ListedKeys<V>(keys: seq<string>, values: seq<V>, id: string) returns (j: nat)
    requires |keys| == |values|
    ensures id in Table(keys, values) <==> exists k :: 0 <= k < |keys| && keys[k] == id
    ensures id in Table(keys, values) ==>
              j < |keys| && keys[j] == id && Table(keys, values)[id] == values[j]
              && forall k :: j < k < |keys| ==> keys[k] != id
  {
    j := TableHolds(keys, values, id);
    if id in keys {
      forall k | j < k < |keys|
        ensures keys[k] != id
      {
        assert keys[j + 1..][k - j - 1] == keys[k];
      }
    }
  }

  /** The id of a group that is given and not empty. */
  ghost predicate NamesGroup(id: Option<string>, groups: seq<Group>) {
    id.Some? && id.value != "" && exists j :: 0 <= j < |groups| && groups[j].id == id.value
  }

  lemma LiveIsNamed(id: Option<string>, groups: seq<Group>)
    ensures Live(id, GroupTable(groups)) <==> NamesGroup(id, groups)
  {
    if id.Some? {
      var ids := seq(|groups|, i requires 0 <= i < |groups| => groups[i].id);
      var j := ListedKeys(ids, groups, id.value);
      assert forall k :: 0 <= k < |groups| ==> ids[k] == groups[k].id;
    }
  }

  /** A key is shown by the label of the last key with its id; an empty id is none. */
  lemma KeyIsLabelled(id: Option<string>, keys: seq<SshKey>) returns (j: nat)
    ensures var shown := KeyLabel(id, KeyTable(keys));
            && (shown.Some? <==>
                  id.Some? && id.value != "" && exists k :: 0 <= k < |keys| && keys[k].id == id.value)
            && (shown.Some? ==>
                  && j < |keys| && keys[j].id == id.value && shown.value == keys[j].labelText
                  && forall k :: j < k < |keys| ==> keys[k].id != id.value)
  {
    j := 0;
    if id.Some? {
      var ids := seq(|keys|, i requires 0 <= i < |keys| => keys[i].id);
      var labels := seq(|keys|, i requires 0 <= i < |keys| => keys[i].labelText);
      j := ListedKeys(ids, labels, id.value);
      assert forall k :: 0 <= k < |keys| ==> ids[k] == keys[k].id;
    }
  }

  /** `names` are the names of the ancestors, the root first. */
  ghost predicate NamesAncestors(names: seq<string>, start: Option<string>, byId: map<string, Group>) {
    forall k :: 0 <= k < |names| ==>
      Live(Ancestor(start, byId, k), byId)
      && names[|names| - 1 - k] == byId[Ancestor(start, byId, k).value].name
  }

  /** A row says of its host where it is and how it is reached; its group path is there exactly when its
      group is, and joins the names of the ancestors from the root down. */
  lemma RowsAreComplete(hosts: seq<Host>, groups: seq<Group>, keys: seq<SshKey>, sshAlias: string -> string,
                        rows: seq<ExportHost>, i: nat) returns (names: seq<string>)
    requires Exported(hosts, groups, keys, sshAlias, rows) && i < |hosts|
    ensures var host, row := hosts[i], rows[i];
            && row.labelText == host.labelText && row.protocol == host.protocol
            && row.hostname == host.hostname && row.port == host.port
            && (row.group.Some? <==> NamesGroup(host.groupId, groups))
            && (row.group.Some? ==> names != [] && row.group.value == Join(names, '/'))
            && NamesAncestors(names, host.groupId, GroupTable(groups))
  {
    var start, byId := hosts[i].groupId, GroupTable(groups);
    var chain := ChainFrom(start, {}, byId);
    LiveIsNamed(start, groups);
    names := PathNames(chain);
    forall k: nat | k < |chain|
      ensures |names| == |chain| && Live(Ancestor(start, byId, k), byId)
      ensures names[|names| - 1 - k] == byId[Ancestor(start, byId, k).value].name
    {
      PathReadsFromRoot(start, byId, k);
    }
    assert chain == [] ==> names == [];
    if chain != [] {
      PathReadsFromRoot(start, byId, 0);
    }
  }
}
