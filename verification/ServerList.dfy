/** The server list of cmd/server_store.go and cmd/server.go: every mutation is one read, one change
    of the list, and one write that may fail. */
module ServerList {
  import opened Common

  /** What the callbacks of changeServer may rewrite; none of them renames, re-identifies or
      activates an entry. */
  datatype Details = Details(ip: string, ipv6: string, stopped: bool, verification: Option<string>)

  datatype Server = Server(name: string, instanceID: string, active: bool, details: Details)

  datatype Instance = Instance(id: string, mainIP: string, v6MainIP: string)

  /** Names distinct, nonempty instance ids distinct, and one active entry unless the list is empty. */
  ghost predicate Inv(l: seq<Server>) {
    && (forall i, j :: 0 <= i < j < |l| ==> l[i].name != l[j].name)
    && (forall i, j :: 0 <= i < j < |l| && l[i].instanceID != "" ==> l[i].instanceID != l[j].instanceID)
    && (|l| > 0 ==> exists a :: 0 <= a < |l| && ActiveOnlyAt(l, a))
  }

  ghost predicate ActiveOnlyAt(l: seq<Server>, a: int) {
    forall i :: 0 <= i < |l| ==> (l[i].active <==> i == a)
  }

  // ---------------------------------------------------------------- what each mutation computes

  predicate Clashes(s: Server, t: Server) {
    s.name == t.name || (t.instanceID != "" && s.instanceID == t.instanceID)
  }

  function Appended(l: seq<Server>, s: Server): Option<seq<Server>> {
    if exists i :: 0 <= i < |l| && Clashes(l[i], s) then None else Some(l + [s.(active := |l| == 0)])
  }

  predicate Selects(s: Server, id: string, name: string) {
    (id != "" && s.instanceID == id) || (id == "" && s.name == name)
  }

  function FirstSelected(l: seq<Server>, id: string, name: string): (i: nat)
    ensures i <= |l| && (i < |l| ==> Selects(l[i], id, name))
    ensures forall j :: 0 <= j < i ==> !Selects(l[j], id, name)
  {
    if |l| == 0 || Selects(l[0], id, name) then 0 else 1 + FirstSelected(l[1..], id, name)
  }

  function Changed(l: seq<Server>, id: string, name: string, d: Details): Option<seq<Server>> {
    var i := FirstSelected(l, id, name);
    if i == |l| then None else Some(l[i := l[i].(details := d)])
  }

  function Removed(l: seq<Server>, id: string, name: string): seq<Server> {
    var i := FirstSelected(l, id, name);
    if i == |l| then l
    else
      var rest := l[..i] + l[i + 1..];
      if l[i].active && |rest| > 0 then rest[0 := rest[0].(active := true)] else rest
  }

  function Used(l: seq<Server>, name: string): Option<seq<Server>> {
    var i := FirstSelected(l, "", name);
    if i == |l| then None else Some(seq(|l|, k requires 0 <= k < |l| => l[k].(active := k == i)))
  }

  /** The last remote instance of an id wins. */
  function Lookup(remote: seq<Instance>, id: string): Option<Instance> {
    if |remote| == 0 then None
    else if remote[|remote| - 1].id == id then Some(remote[|remote| - 1])
    else Lookup(remote[..|remote| - 1], id)
  }

  predicate Fills(s: Server, remote: seq<Instance>) {
    && s.instanceID != "" && s.details.ip == ""
    && var r := Lookup(remote, s.instanceID); r.Some? && r.value.mainIP != "" && r.value.mainIP != "0.0.0.0"
  }

  function FilledEntry(s: Server, remote: seq<Instance>): Server {
    if Fills(s, remote) then
      var r := Lookup(remote, s.instanceID).value;
      s.(details := s.details.(ip := r.mainIP, ipv6 := r.v6MainIP))
    else s
  }

  function Filled(l: seq<Server>, remote: seq<Instance>): seq<Server> {
    seq(|l|, k requires 0 <= k < |l| => FilledEntry(l[k], remote))
  }

  function FillCount(l: seq<Server>, remote: seq<Instance>): nat {
    if |l| == 0 then 0 else FillCount(l[..|l| - 1], remote) + (if Fills(l[|l| - 1], remote) then 1 else 0)
  }

  // ---------------------------------------------------------------- as the source does it

  class ServerStore {
    var servers: seq<Server>
    ghost var failures: nat  // writes that reported failure so far

    constructor ()
      ensures servers == []
    {
      servers := [];
    }

    /** A write that reports failure may or may not have replaced the file. */
    method Save(l: seq<Server>) returns (ok: bool)
      modifies this
      ensures servers == l || (!ok && servers == old(servers))
      ensures failures == old(failures) + (if ok then 0 else 1)
    {
      ok := false;
      if * {
        servers := l;
        ok := *;
      }
      if !ok {
        failures := failures + 1;
      }
    }

    method AppendServer(srv: Server) returns (ok: bool)
      modifies this
      ensures servers == old(servers) || Some(servers) == Appended(old(servers), srv)
      ensures ok ==> Some(servers) == Appended(old(servers), srv)
      ensures ok <==> Appended(old(servers), srv).Some? && failures == old(failures)
    {
      for i := 0 to |servers|
        invariant servers == old(servers) && failures == old(failures)
        invariant forall j :: 0 <= j < i ==> !Clashes(servers[j], srv)
      {
        if servers[i].name == srv.name || (srv.instanceID != "" && servers[i].instanceID == srv.instanceID) {
          return false;
        }
      }
      ok := Save(servers + [srv.(active := |servers| == 0)]);
    }

    method ChangeServer(id: string, name: string, d: Details) returns (ok: bool)
      modifies this
      ensures servers == old(servers) || Some(servers) == Changed(old(servers), id, name, d)
      ensures ok ==> Some(servers) == Changed(old(servers), id, name, d)
      ensures ok <==> Changed(old(servers), id, name, d).Some? && failures == old(failures)
    {
      for i := 0 to |servers|
        invariant servers == old(servers) && failures == old(failures)
        invariant forall j :: 0 <= j < i ==> !Selects(servers[j], id, name)
      {
        if (id != "" && servers[i].instanceID == id) || (id == "" && servers[i].name == name) {
          ok := Save(servers[i := servers[i].(details := d)]);
          return ok;
        }
      }
      return false;
    }

    method RemoveRecordedServer(id: string, name: string) returns (ok: bool)
      modifies this
      ensures servers == old(servers) || servers == Removed(old(servers), id, name)
      ensures ok ==> servers == Removed(old(servers), id, name)
      ensures ok <==> failures == old(failures)
    {
      for i := 0 to |servers|
        invariant servers == old(servers) && failures == old(failures)
        invariant forall j :: 0 <= j < i ==> !Selects(servers[j], id, name)
      {
        var s := servers[i];
        if (id != "" && s.instanceID == id) || (id == "" && s.name == name) {
          var rest := servers[..i] + servers[i + 1..];
          if s.active && |rest| > 0 {
            rest := rest[0 := rest[0].(active := true)];
          }
          ok := Save(rest);
          return ok;
        }
      }
      ok := Save(servers);
    }

    method UseServer(name: string) returns (ok: bool)
      modifies this
      ensures servers == old(servers) || Some(servers) == Used(old(servers), name)
      ensures ok ==> Some(servers) == Used(old(servers), name)
      ensures ok <==> Used(old(servers), name).Some? && failures == old(failures)
    {
      var selected := FirstSelected(servers, "", name);
      if selected == |servers| {
        return false;
      }
      var current := servers;
      for i := 0 to |current|
        invariant |current| == |old(servers)| && servers == old(servers)
        invariant forall k :: 0 <= k < i ==> current[k] == servers[k].(active := k == selected)
        invariant forall k :: i <= k < |current| ==> current[k] == servers[k]
      {
        current := current[i := current[i].(active := i == selected)];
      }
      assert current == Used(servers, name).value;
      ok := Save(current);
    }

    /** Fills in addresses that arrived after an entry was recorded, and says how many. */
    method FillAddresses(remote: seq<Instance>) returns (filled: nat, ok: bool)
      modifies this
      ensures servers == old(servers) || servers == Filled(old(servers), remote)
      ensures ok ==> servers == Filled(old(servers), remote)
      ensures ok <==> failures == old(failures)
      ensures filled == FillCount(old(servers), remote)
    {
      var local := servers;
      filled := 0;
      for i := 0 to |local|
        invariant |local| == |servers| && servers == old(servers)
        invariant forall k :: 0 <= k < i ==> local[k] == FilledEntry(servers[k], remote)
        invariant forall k :: i <= k < |local| ==> local[k] == servers[k]
        invariant filled == FillCount(servers[..i], remote)
      {
        assert servers[..i + 1][..i] == servers[..i];
        if local[i].instanceID == "" || local[i].details.ip != "" {
          continue;
        }
        var r := Lookup(remote, local[i].instanceID);
        if r.None? || r.value.mainIP == "" || r.value.mainIP == "0.0.0.0" {
          continue;
        }
        local := local[i := local[i].(details := local[i].details.(ip := r.value.mainIP, ipv6 := r.value.v6MainIP))];
        filled := filled + 1;
      }
      assert servers[..|servers|] == servers;
      assert local == Filled(servers, remote);
      hide Filled, FillCount;
      ok := Save(local);
    }
  }

  // ---------------------------------------------------------------- every run keeps the invariant

  datatype Op =
    | Append(server: Server)
    | Change(id: string, name: string, details: Details)
    | Remove(id: string, name: string)
    | Use(name: string)
    | Fill(remote: seq<Instance>)

  /** The list after one operation whose write took effect; a refused operation changes nothing. */
  function Apply(l: seq<Server>, op: Op): seq<Server> {
    match op
    case Append(s) => Appended(l, s).GetOr(l)
    case Change(id, name, d) => Changed(l, id, name, d).GetOr(l)
    case Remove(id, name) => Removed(l, id, name)
    case Use(name) => Used(l, name).GetOr(l)
    case Fill(remote) => Filled(l, remote)
  }

  lemma AppendKeepsInv(l: seq<Server>, s: Server)
    requires Inv(l)
    ensures Appended(l, s).Some? ==> Inv(Appended(l, s).value)
  {
    var r := Appended(l, s);
    if r.Some? {
      if |l| == 0 {
        assert ActiveOnlyAt(r.value, 0);
      } else {
        var a :| 0 <= a < |l| && ActiveOnlyAt(l, a);
        assert ActiveOnlyAt(r.value, a);
      }
      assert forall i :: 0 <= i < |l| ==> !Clashes(l[i], s);
    }
  }

  lemma ChangeKeepsInv(l: seq<Server>, id: string, name: string, d: Details)
    requires Inv(l)
    ensures Changed(l, id, name, d).Some? ==> Inv(Changed(l, id, name, d).value)
  {
    var r := Changed(l, id, name, d);
    if r.Some? {
      var a :| 0 <= a < |l| && ActiveOnlyAt(l, a);
      assert ActiveOnlyAt(r.value, a);
    }
  }

  /** Entry `k` after a removal is entry `k` or `k + 1` before it, but perhaps for being active. */
  lemma RemovedAt(l: seq<Server>, id: string, name: string, k: nat)
    requires FirstSelected(l, id, name) < |l| && k < |l| - 1
    ensures |Removed(l, id, name)| == |l| - 1
    ensures var i, r := FirstSelected(l, id, name), Removed(l, id, name)[k];
            var was := l[if k < i then k else k + 1];
            r == was.(active := was.active || (l[i].active && k == 0))
  {
  }

  lemma RemoveKeepsInv(l: seq<Server>, id: string, name: string)
    requires Inv(l)
    ensures Inv(Removed(l, id, name))
    ensures |Removed(l, id, name)| == |l| - (if FirstSelected(l, id, name) < |l| then 1 else 0)
  {
    hide Removed;
    var i := FirstSelected(l, id, name);
    var r := Removed(l, id, name);
    if i == |l| {
      assert r == l by { RemovedNothing(l, id, name); }
    } else {
      RemovedLength(l, id, name);
      forall k | 0 <= k < |l| - 1
        ensures |r| == |l| - 1
        ensures var was := l[if k < i then k else k + 1]; r[k] == was.(active := was.active || (l[i].active && k == 0))
      {
        RemovedAt(l, id, name, k);
      }
      if |r| > 0 {
        var a :| 0 <= a < |l| && ActiveOnlyAt(l, a);
        assert ActiveOnlyAt(r, if i == a then 0 else if a < i then a else a - 1);
      }
    }
  }

  lemma RemovedNothing(l: seq<Server>, id: string, name: string)
    requires FirstSelected(l, id, name) == |l|
    ensures Removed(l, id, name) == l
  {
  }

  lemma RemovedLength(l: seq<Server>, id: string, name: string)
    requires FirstSelected(l, id, name) < |l|
    ensures |Removed(l, id, name)| == |l| - 1
  {
  }

  lemma UseKeepsInv(l: seq<Server>, name: string)
    requires Inv(l)
    ensures Used(l, name).Some? ==>
        Inv(Used(l, name).value) && ActiveOnlyAt(Used(l, name).value, FirstSelected(l, "", name))
  {
    if Used(l, name).Some? {
      assert ActiveOnlyAt(Used(l, name).value, FirstSelected(l, "", name));
    }
  }

  lemma FillKeepsInv(l: seq<Server>, remote: seq<Instance>)
    requires Inv(l)
    ensures Inv(Filled(l, remote))
  {
    if |l| > 0 {
      var a :| 0 <= a < |l| && ActiveOnlyAt(l, a);
      assert ActiveOnlyAt(Filled(l, remote), a);
    }
  }

  // ---------------------------------------------------------------- what each operation does to a valid list

  /** Is this the entry that is asked for, by its instance id or, without one, by its name? */
  predicate IsAskedFor(s: Server, id: string, name: string) {
    if id != "" then s.instanceID == id else s.name == name
  }

  /** A new entry is refused exactly when its name or its instance is recorded; otherwise it comes last,
      active only if it is alone, and the others stay. */
  lemma AppendAddsOne(l: seq<Server>, s: Server)
    ensures Appended(l, s).None? <==>
            exists i :: 0 <= i < |l| && (l[i].name == s.name || (s.instanceID != "" && l[i].instanceID == s.instanceID))
    ensures Appended(l, s).Some? ==>
              var r := Appended(l, s).value;
              && |r| == |l| + 1 && r[..|l|] == l && r[|l|].(active := s.active) == s && (r[|l|].active <==> l == [])
  {
    if i :| 0 <= i < |l| && (l[i].name == s.name || (s.instanceID != "" && l[i].instanceID == s.instanceID)) {
      assert Clashes(l[i], s);
    }
  }

  lemma OneIsSelected(l: seq<Server>, id: string, name: string)
    requires Inv(l)
    ensures forall i :: 0 <= i < |l| ==> (IsAskedFor(l[i], id, name) <==> i == FirstSelected(l, id, name))
  {
    forall i | 0 <= i < |l| ensures IsAskedFor(l[i], id, name) <==> Selects(l[i], id, name) {
    }
  }

  /** In a valid list a change rewrites the details of the entry asked for and nothing else, and is
      refused exactly when there is none. */
  lemma ChangeRewritesTheEntryAskedFor(l: seq<Server>, id: string, name: string, d: Details)
    requires Inv(l)
    ensures Changed(l, id, name, d).None? <==> forall i :: 0 <= i < |l| ==> !IsAskedFor(l[i], id, name)
    ensures Changed(l, id, name, d).Some? ==>
              var r := Changed(l, id, name, d).value;
              |r| == |l| && forall i :: 0 <= i < |l| ==>
                r[i] == if IsAskedFor(l[i], id, name) then l[i].(details := d) else l[i]
  {
    OneIsSelected(l, id, name);
    var i := FirstSelected(l, id, name);
    assert i < |l| ==> IsAskedFor(l[i], id, name);
  }

  /** In a valid list a use activates the entry of that name and no other, leaves all else as it is, and
      is refused exactly when there is none. */
  lemma UseActivatesTheEntryNamed(l: seq<Server>, name: string)
    requires Inv(l)
    ensures Used(l, name).None? <==> forall i :: 0 <= i < |l| ==> l[i].name != name
    ensures Used(l, name).Some? ==>
              var r := Used(l, name).value;
              |r| == |l| && forall i :: 0 <= i < |l| ==> r[i] == l[i].(active := l[i].name == name)
  {
    OneIsSelected(l, "", name);
    var i := FirstSelected(l, "", name);
    assert i < |l| ==> IsAskedFor(l[i], "", name);
  }

  /** In a valid list a removal takes out the entry asked for and no other; the rest keep their order,
      and only the new head of a list that lost its active entry becomes active. */
  lemma RemoveTakesTheEntryAskedFor(l: seq<Server>, id: string, name: string)
    requires Inv(l)
    ensures (forall i :: 0 <= i < |l| ==> !IsAskedFor(l[i], id, name)) ==> Removed(l, id, name) == l
    ensures forall i :: 0 <= i < |l| && IsAskedFor(l[i], id, name) ==>
              var r := Removed(l, id, name);
              && |r| == |l| - 1
              && forall k :: 0 <= k < |r| ==>
                   var was := l[if k < i then k else k + 1]; r[k] == was.(active := was.active || (l[i].active && k == 0))
  {
    hide Removed, Selects;
    OneIsSelected(l, id, name);
    var f, r := FirstSelected(l, id, name), Removed(l, id, name);
    if f == |l| {
      RemovedNothing(l, id, name);
    } else {
      assert IsAskedFor(l[f], id, name);
      RemovedLength(l, id, name);
      forall k | 0 <= k < |l| - 1
        ensures |r| == |l| - 1
        ensures var was := l[if k < f then k else k + 1]; r[k] == was.(active := was.active || (l[f].active && k == 0))
      {
        RemovedAt(l, id, name, k);
      }
    }
  }

  /** One operation of a run, and whether its write took effect. */
  datatype Step = Step(op: Op, written: bool)

  function RunFrom(l: seq<Server>, run: seq<Step>): seq<Server> {
    if |run| == 0 then l
    else
      var before := RunFrom(l, run[..|run| - 1]);
      if run[|run| - 1].written then Apply(before, run[|run| - 1].op) else before
  }

  /** From the empty list, whatever is done and whichever writes fail. */
  lemma {:induction false} EveryRunKeepsInv(run: seq<Step>)
    ensures Inv(RunFrom([], run))
  {
    if |run| == 0 {
    } else {
      var before := RunFrom([], run[..|run| - 1]);
      EveryRunKeepsInv(run[..|run| - 1]);
      match run[|run| - 1].op
      case Append(s) => AppendKeepsInv(before, s);
      case Change(id, name, d) => ChangeKeepsInv(before, id, name, d);
      case Remove(id, name) => RemoveKeepsInv(before, id, name);
      case Use(name) => UseKeepsInv(before, name);
      case Fill(remote) => FillKeepsInv(before, remote);
    }
  }

  /** Filling never touches an entry that has an address, and a repeat has nothing left to fill. */
  lemma {:induction false} FillIsIdempotent(l: seq<Server>, remote: seq<Instance>)
    ensures Filled(Filled(l, remote), remote) == Filled(l, remote)
    ensures FillCount(Filled(l, remote), remote) == 0
    ensures forall i :: 0 <= i < |l| && l[i].details.ip != "" ==> Filled(l, remote)[i] == l[i]
  {
    if |l| == 0 {
    } else {
      FillIsIdempotent(l[..|l| - 1], remote);
      assert Filled(l, remote)[..|l| - 1] == Filled(l[..|l| - 1], remote);
    }
  }

  lemma {:induction false} LookupFinds(remote: seq<Instance>, j: nat)
    requires j < |remote| && forall a, b :: 0 <= a < b < |remote| ==> remote[a].id != remote[b].id
    ensures Lookup(remote, remote[j].id) == Some(remote[j])
  {
    if j == |remote| - 1 {
    } else {
      LookupFinds(remote[..|remote| - 1], j);
    }
  }

  /** An entry without an address gets that of its instance, if the instance has one. */
  lemma FillGivesAddresses(l: seq<Server>, remote: seq<Instance>, i: nat, j: nat)
    requires i < |l| && j < |remote| && forall a, b :: 0 <= a < b < |remote| ==> remote[a].id != remote[b].id
    requires l[i].instanceID == remote[j].id != "" && l[i].details.ip == ""
    requires remote[j].mainIP != "" && remote[j].mainIP != "0.0.0.0"
    ensures Filled(l, remote)[i] ==
            l[i].(details := l[i].details.(ip := remote[j].mainIP, ipv6 := remote[j].v6MainIP))
  {
    LookupFinds(remote, j);
  }

  function Differing(a: seq<Server>, b: seq<Server>): nat
    requires |a| == |b|
  {
    if |a| == 0 then 0
    else Differing(a[..|a| - 1], b[..|b| - 1]) + (if a[|a| - 1] != b[|b| - 1] then 1 else 0)
  }

  /** The number reported is the number of entries that changed. */
  lemma {:induction false} FillCountsWhatChanged(l: seq<Server>, remote: seq<Instance>)
    ensures FillCount(l, remote) == Differing(l, Filled(l, remote))
  {
    if |l| == 0 {
    } else {
      FillCountsWhatChanged(l[..|l| - 1], remote);
      assert Filled(l, remote)[..|l| - 1] == Filled(l[..|l| - 1], remote);
    }
  }
}
