/** utils/dns.go: pointing the system resolvers at the tunnel and putting them back, on a machine
    whose calls may fail with or without effect and which may stop between any two of them. */
module DnsTransaction {
  import opened Common

  type Resolvers = seq<string>

  const GATEWAY := "172.19.0.1"
  const DHCP: Resolvers := ["Empty"]  // how an empty list is written; it reads back as []

  // ---------------------------------------------------------------- stripping the gateway

  predicate IsSpace(c: char) { c in {' ', '\t', '\n', '\r', '\U{000B}', '\U{000C}'} }

  function TrimSpace(s: string): string
    decreases |s|
  {
    if |s| > 0 && IsSpace(s[0]) then TrimSpace(s[1..])
    else if |s| > 0 && IsSpace(s[|s| - 1]) then TrimSpace(s[..|s| - 1])
    else s
  }

  predicate IsGateway(d: string) { TrimSpace(d) == GATEWAY }

  predicate Blank(s: string) { forall i :: 0 <= i < |s| ==> IsSpace(s[i]) }

  /** Trimming takes off white space at both ends and nothing else. */
  lemma {:induction false} TrimTakesOffPadding(a: string, s: string, b: string)
    requires Blank(a) && Blank(b) && (s == "" || (!IsSpace(s[0]) && !IsSpace(s[|s| - 1])))
    ensures TrimSpace(a + s + b) == s
    decreases |a| + |b|
  {
    var t := a + s + b;
    if |a| > 0 {
      assert t[1..] == a[1..] + s + b;
      TrimTakesOffPadding(a[1..], s, b);
    } else if |b| > 0 {
      if s == "" {
        assert t[1..] == a + s + b[1..];
        TrimTakesOffPadding(a, s, b[1..]);
      } else {
        assert t[..|t| - 1] == a + s + b[..|b| - 1];
        TrimTakesOffPadding(a, s, b[..|b| - 1]);
      }
    } else {
      assert t == s;
    }
  }

  /** What is left is the text between the padding. */
  lemma {:induction false} TrimmedIsPadded(s: string)
    ensures exists a, b :: Blank(a) && Blank(b) && s == a + TrimSpace(s) + b
    decreases |s|
  {
    if |s| > 0 && IsSpace(s[0]) {
      TrimmedIsPadded(s[1..]);
      var a, b :| Blank(a) && Blank(b) && s[1..] == a + TrimSpace(s[1..]) + b;
      assert Blank([s[0]] + a) && s == ([s[0]] + a) + TrimSpace(s) + b;
    } else if |s| > 0 && IsSpace(s[|s| - 1]) {
      var init := s[..|s| - 1];
      TrimmedIsPadded(init);
      var a, b :| Blank(a) && Blank(b) && init == a + TrimSpace(init) + b;
      assert Blank(b + [s[|s| - 1]]) && s == a + TrimSpace(s) + (b + [s[|s| - 1]]);
    } else {
      assert Blank("") && s == "" + TrimSpace(s) + "";
    }
  }

  /** A resolver is the gateway exactly when it is its address, with or without white space around. */
  lemma GatewayIsPadded(d: string)
    ensures IsGateway(d) <==> exists a, b :: Blank(a) && Blank(b) && d == a + "172.19.0.1" + b
  {
    TrimmedIsPadded(d);
    forall a, b | Blank(a) && Blank(b) && d == a + GATEWAY + b ensures IsGateway(d) {
      TrimTakesOffPadding(a, GATEWAY, b);
    }
  }

  /** The list without the gateway, in order. */
  function Strip(dns: Resolvers): (out: Resolvers)
    ensures |out| <= |dns| && (|out| == |dns| ==> out == dns)
    ensures forall d :: d in out <==> d in dns && !IsGateway(d)
  {
    if |dns| == 0 then []
    else
      var last := dns[|dns| - 1];
      assert dns == dns[..|dns| - 1] + [last];
      Strip(dns[..|dns| - 1]) + (if IsGateway(last) then [] else [last])
  }

  method StripTunGateway(dns: Resolvers) returns (out: Resolvers)
    ensures out == Strip(dns)
  {
    out := [];
    for i := 0 to |dns|
      invariant out == Strip(dns[..i])
    {
      assert dns[..i + 1][..i] == dns[..i];
      if TrimSpace(dns[i]) != GATEWAY {
        out := out + [dns[i]];
      }
    }
    assert dns[..|dns|] == dns;
  }

  lemma {:induction false} StripCleanList(dns: Resolvers)
    requires forall d :: d in dns ==> !IsGateway(d)
    ensures Strip(dns) == dns
  {
    if |dns| == 0 {
    } else {
      StripCleanList(dns[..|dns| - 1]);
    }
  }

  /** Address by address, in order. */
  lemma {:induction false} StripAppend(a: Resolvers, b: Resolvers)
    ensures Strip(a + b) == Strip(a) + Strip(b)
  {
    if |b| == 0 {
      assert a + b == a;
    } else {
      assert (a + b)[..|a + b| - 1] == a + b[..|b| - 1];
      StripAppend(a, b[..|b| - 1]);
    }
  }

  lemma StripIsIdempotent(dns: Resolvers)
    ensures Strip(Strip(dns)) == Strip(dns)
  {
    StripCleanList(Strip(dns));
  }

  // ---------------------------------------------------------------- the machine

  type Services = map<string, Resolvers>

  /** Everything that survives the daemon: the system resolvers and the backup file. */
  datatype World = World(dns: Services, backup: Option<Services>)

  /** Resolvers as a user may have set them: no gateway, and not the word that means DHCP. */
  ghost predicate Originals(orig: Services) {
    forall svc :: svc in orig ==> orig[svc] != DHCP && Strip(orig[svc]) == orig[svc]
  }

  ghost predicate Recoverable(w: World, orig: Services, svc: string)
    requires svc in orig && svc in w.dns
  {
    Strip(w.dns[svc]) == orig[svc] || (w.backup.Some? && svc in w.backup.value)
  }

  /** No service has lost its original resolvers, and the backup holds originals only. */
  ghost predicate Safe(w: World, orig: Services) {
    && Originals(orig)
    && w.dns.Keys == orig.Keys
    && (w.backup.Some? ==> forall svc :: svc in w.backup.value ==> svc in orig && w.backup.value[svc] == orig[svc])
    && forall svc :: svc in orig ==> Recoverable(w, orig, svc)
  }

  /** What a service reads back as after being set. */
  function Effective(servers: Resolvers): Resolvers { if servers == DHCP then [] else servers }

  /** The write-ahead rule: a service may be changed when its originals are in the saved backup, or
      to a list that still carries them. */
  lemma SetIsSafe(w: World, orig: Services, svc: string, servers: Resolvers)
    requires Safe(w, orig) && svc in w.dns
    requires Strip(Effective(servers)) == orig[svc] || (w.backup.Some? && svc in w.backup.value)
    ensures Safe(World(w.dns[svc := Effective(servers)], w.backup), orig)
  {
  }

  /** A backup may be replaced or dropped when every service missing from the new one is on its
      original resolvers. */
  lemma BackupIsSafe(w: World, orig: Services, backup: Option<Services>)
    requires Safe(w, orig)
    requires backup.Some? ==> forall svc :: svc in backup.value ==> svc in orig && backup.value[svc] == orig[svc]
    requires forall svc :: svc in orig ==> Strip(w.dns[svc]) == orig[svc] || (backup.Some? && svc in backup.value)
    ensures Safe(World(w.dns, backup), orig)
  {
  }

  /** What is known of one service in a safe world. */
  lemma SafeService(w: World, orig: Services, svc: string)
    requires Safe(w, orig)
    ensures svc in w.dns <==> svc in orig
    ensures svc in orig ==> orig[svc] != DHCP && Strip(orig[svc]) == orig[svc]
    ensures svc in orig ==> Strip(w.dns[svc]) == orig[svc] || (w.backup.Some? && svc in w.backup.value)
    ensures w.backup.Some? && svc in w.backup.value ==> svc in orig && w.backup.value[svc] == orig[svc]
  {
  }

  /** What each service's resolvers are before the daemon first touches them. */
  ghost function OriginalsOf(dns: Services): Services { map svc | svc in dns :: Strip(dns[svc]) }

  lemma FirstWorldIsSafe(dns: Services)
    requires forall svc :: svc in dns ==> Strip(dns[svc]) != DHCP
    ensures Safe(World(dns, None), OriginalsOf(dns))
  {
    hide Strip;
    var orig := OriginalsOf(dns);
    forall svc | svc in dns ensures Strip(orig[svc]) == orig[svc] && Recoverable(World(dns, None), orig, svc) {
      StripIsIdempotent(dns[svc]);
    }
  }

  /** A primitive that reported failure. */
  datatype Fault = ListFailed | ReadFailed | SaveFailed | RemoveFailed | GetFailed(svc: string) | SetFailed(svc: string)

  datatype ReadOutcome = NotExist | Unreadable | Backup(services: Services)

  class Machine {
    var dns: Services
    var backup: Option<Services>
    var trace: seq<World>         // the world after every primitive: every point of a stop
    ghost const orig: Services
    ghost var faults: set<Fault>  // the failures reported in the current call

    function Now(): World
      reads this
    {
      World(dns, backup)
    }

    /** Wherever the daemon is stopped, or was, nothing is lost. */
    ghost predicate Valid()
      reads this
    {
      Safe(Now(), orig) && forall i :: 0 <= i < |trace| ==> Safe(trace[i], orig)
    }

    constructor (dns: Services)
      requires forall svc :: svc in dns ==> Strip(dns[svc]) != DHCP
      ensures Valid() && this.dns == dns && backup.None?
      ensures orig == OriginalsOf(dns)
    {
      this.dns, backup, trace, faults := dns, None, [], {};
      orig := OriginalsOf(dns);
      FirstWorldIsSafe(dns);
    }

    // -------------------------------------------------------------- primitives

    /** Can the services be listed? */
    method List() returns (ok: bool)
      modifies `faults
      ensures faults == old(faults) + (if ok then {} else {ListFailed})
    {
      ok := *;
      if !ok {
        faults := faults + {ListFailed};
      }
    }

    method Get(svc: string) returns (r: Result<Resolvers>)
      modifies `faults
      ensures r.Ok? ==> svc in dns && r.value == dns[svc]
      ensures faults == old(faults) + (if r.Ok? then {} else {GetFailed(svc)})
    {
      if svc in dns {
        if * {
          return Ok(dns[svc]);
        }
      }
      faults := faults + {GetFailed(svc)};
      return Err;
    }

    /** A call that reports failure may or may not have changed the service. */
    method Set(svc: string, servers: Resolvers) returns (ok: bool)
      requires Valid() && (svc in dns ==> Safe(World(dns[svc := Effective(servers)], backup), orig))
      modifies this
      ensures Valid() && trace == old(trace) + [Now()] && backup == old(backup)
      ensures dns == old(dns) || (svc in old(dns) && dns == old(dns)[svc := Effective(servers)])
      ensures ok ==> svc in old(dns) && dns == old(dns)[svc := Effective(servers)]
      ensures faults == old(faults) + (if ok then {} else {SetFailed(svc)})
    {
      hide Safe;
      ok := false;
      if svc in dns {
        if * {
          dns := dns[svc := if servers == DHCP then [] else servers];
          ok := *;
        }
      }
      if !ok {
        faults := faults + {SetFailed(svc)};
      }
      trace := trace + [Now()];
    }

    method ReadBackup() returns (r: ReadOutcome)
      modifies `faults
      ensures r.NotExist? ==> backup.None?
      ensures r.Backup? ==> backup == Some(r.services)
      ensures faults == old(faults) + (if r.Unreadable? then {ReadFailed} else {})
    {
      if * {
        faults := faults + {ReadFailed};
        return Unreadable;
      }
      return if backup.None? then NotExist else Backup(backup.value);
    }

    /** The rename replaces the whole file or leaves the old one. */
    method SaveBackup(b: Services) returns (ok: bool)
      requires Valid() && Safe(World(dns, Some(b)), orig)
      modifies this
      ensures Valid() && trace == old(trace) + [Now()] && dns == old(dns)
      ensures backup == Some(b) || (!ok && backup == old(backup))
      ensures faults == old(faults) + (if ok then {} else {SaveFailed})
    {
      hide Safe;
      ok := false;
      if * {
        backup := Some(b);
        ok := *;
      }
      if !ok {
        faults := faults + {SaveFailed};
      }
      trace := trace + [Now()];
    }

    method RemoveBackup() returns (ok: bool)
      requires Valid() && Safe(World(dns, None), orig)
      modifies this
      ensures Valid() && trace == old(trace) + [Now()] && dns == old(dns)
      ensures backup.None? || (!ok && backup == old(backup))
      ensures faults == old(faults) + (if ok then {} else {RemoveFailed})
    {
      hide Safe;
      ok := false;
      if * {
        backup := None;
        ok := *;
      }
      if !ok {
        faults := faults + {RemoveFailed};
      }
      trace := trace + [Now()];
    }

    /** The daemon was killed at some earlier point, and starts over in the world as it was there. */
    method StopAt(i: nat)
      requires Valid() && i < |trace|
      modifies this
      ensures Valid() && Now() == old(trace)[i] && trace == old(trace)
    {
      hide Safe;
      dns, backup := trace[i].dns, trace[i].backup;
    }

    // -------------------------------------------------------------- taking over

    /** `services` is what the system lists. The originals of every listed service are in the saved
        backup before any of them is pointed at the tunnel. */
    method TakeOver(services: seq<string>) returns (ok: bool)
      requires Valid()
      modifies this
      ensures Valid() && old(trace) <= trace
      // It fails exactly when one of its calls did.
      ensures ok <==> faults == {}
      // Once the originals are saved, a service is at the tunnel unless its own call failed.
      ensures (forall f :: f in faults ==> f.SetFailed?) ==>
                backup.Some? && forall k :: 0 <= k < |services| ==>
                  && services[k] in backup.value && services[k] in orig
                  && backup.value[services[k]] == orig[services[k]]
                  && (SetFailed(services[k]) in faults ||
                      (services[k] in dns && dns[services[k]] == [GATEWAY]))
      ensures forall svc :: svc in old(dns) && svc !in services ==> svc in dns && dns[svc] == old(dns)[svc]
    {
      hide Safe, Strip;
      faults := {};
      var listed := List();
      if !listed {
        return false;
      }
      var read := ReadBackup();
      if read.Unreadable? {
        return false;
      }
      var saved := if read.Backup? then read.services else map[];
      var collected := Collect(services, saved);
      if collected.Err? {
        return false;
      }
      saved := collected.value;
      forall svc | svc in orig ensures svc in dns && (Strip(dns[svc]) == orig[svc] || svc in saved) {
        SafeService(Now(), orig, svc);
      }
      BackupIsSafe(Now(), orig, Some(saved));
      var stored := SaveBackup(saved);
      if !stored {
        return false;
      }
      ok := PointAtGateway(services, saved);
    }

    /** Add the originals of the listed services to a backup that may hold some from a crashed run. */
    method Collect(services: seq<string>, saved: Services) returns (r: Result<Services>)
      requires Valid() && faults == {} && (backup.Some? ==> saved == backup.value) && (backup.None? ==> saved == map[])
      modifies `faults
      ensures Valid()
      ensures r.Ok? ==>
                && (forall svc :: svc in saved ==> svc in r.value)
                && (forall k :: 0 <= k < |services| ==> services[k] in r.value)
                && (forall svc :: svc in r.value ==> svc in orig && r.value[svc] == orig[svc])
      ensures if r.Ok? then faults == {} else exists svc :: faults == {GetFailed(svc)}
    {
      hide Safe;
      var all := saved;
      forall svc ensures svc in saved ==> svc in orig && saved[svc] == orig[svc] {
        SafeService(Now(), orig, svc);
      }
      for i := 0 to |services|
        invariant Valid() && faults == {}
        invariant forall svc :: svc in all ==> svc in orig && all[svc] == orig[svc]
        invariant forall svc :: svc in saved ==> svc in all
        invariant forall k :: 0 <= k < i ==> services[k] in all
      {
        if services[i] in all {
          continue;
        }
        var current := Get(services[i]);
        if current.Err? {
          return Err;
        }
        SafeService(Now(), orig, services[i]);
        var clean := StripTunGateway(current.value);
        all := all[services[i] := clean];
      }
      return Ok(all);
    }

    method PointAtGateway(services: seq<string>, saved: Services) returns (ok: bool)
      requires Valid() && faults == {} && backup == Some(saved)
      requires forall k :: 0 <= k < |services| ==>
          services[k] in saved && services[k] in orig && saved[services[k]] == orig[services[k]]
      modifies this
      ensures Valid() && old(trace) <= trace && backup == Some(saved)
      ensures ok <==> faults == {}
      ensures forall k :: 0 <= k < |services| ==>
                SetFailed(services[k]) in faults ||
                (services[k] in dns && dns[services[k]] == [GATEWAY])
      ensures forall svc :: svc in old(dns) && svc !in services ==> svc in dns && dns[svc] == old(dns)[svc]
    {
      hide Safe, Strip;
      ok := true;
      for i := 0 to |services|
        invariant Valid() && old(trace) <= trace && backup == Some(saved)
        invariant ok <==> faults == {}
        invariant forall k :: 0 <= k < i ==>
                    SetFailed(services[k]) in faults ||
                    (services[k] in dns && dns[services[k]] == [GATEWAY])
        invariant forall svc :: svc in old(dns) && svc !in services ==> svc in dns && dns[svc] == old(dns)[svc]
      {
        SafeService(Now(), orig, services[i]);
        SetIsSafe(Now(), orig, services[i], [GATEWAY]);
        var written := Set(services[i], [GATEWAY]);
        if !written {
          ok := false;
        }
      }
    }

    // -------------------------------------------------------------- restoring

    method Restore(services: seq<string>) returns (ok: bool)
      requires Valid()
      modifies this
      ensures Valid() && old(trace) <= trace
      // It fails exactly when one of its calls did.
      ensures ok <==> faults == {}
      // From a backup that could be read: whatever the other calls did, a service whose own call did
      // not fail is on its originals, and one whose call failed stays in the backup.
      ensures old(backup).Some? && ReadFailed !in faults ==>
                forall svc :: svc in old(backup).value ==>
                  && svc in dns && svc in orig
                  && if SetFailed(svc) in faults
                     then backup.Some? && svc in backup.value && backup.value[svc] == orig[svc]
                     else dns[svc] == orig[svc]
      ensures ok ==> backup.None?
      ensures backup.Some? && ReadFailed !in faults && SaveFailed !in faults && RemoveFailed !in faults ==>
                forall svc :: svc in backup.value ==> SetFailed(svc) in faults
      // Without one: a listed service none of whose calls failed is on no dead tunnel.
      ensures old(backup).None? && ReadFailed !in faults && ListFailed !in faults ==>
                forall k :: 0 <= k < |services| ==>
                  || GetFailed(services[k]) in faults || SetFailed(services[k]) in faults
                  || (services[k] in dns && services[k] in orig && dns[services[k]] == orig[services[k]])
    {
      hide Safe;
      faults := {};
      var read := ReadBackup();
      if read.NotExist? {
        ok := RestoreWithoutBackup(services);
        return ok;
      }
      if read.Unreadable? {
        return false;
      }
      ok := RestoreFrom(read.services);
    }

    method RestoreWithoutBackup(services: seq<string>) returns (ok: bool)
      requires Valid() && faults == {} && backup.None?
      modifies this
      ensures Valid() && old(trace) <= trace && backup.None?
      ensures ok <==> faults == {}
      ensures ListFailed !in faults ==>
                forall k :: 0 <= k < |services| ==>
                  || GetFailed(services[k]) in faults || SetFailed(services[k]) in faults
                  || (services[k] in dns && services[k] in orig && dns[services[k]] == orig[services[k]])
      ensures forall svc :: svc in old(dns) && svc !in services ==> svc in dns && dns[svc] == old(dns)[svc]
    {
      hide Safe, Strip;
      var listed := List();
      if !listed {
        return false;
      }
      ok := true;
      for i := 0 to |services|
        invariant Valid() && old(trace) <= trace && backup.None?
        invariant ok <==> faults == {}
        invariant forall k :: 0 <= k < i ==>
                    || GetFailed(services[k]) in faults || SetFailed(services[k]) in faults
                    || (services[k] in dns && services[k] in orig && dns[services[k]] == orig[services[k]])
        invariant forall svc :: svc in old(dns) && svc !in services ==> svc in dns && dns[svc] == old(dns)[svc]
      {
        var svc := services[i];
        var current := Get(svc);
        if current.Err? {
          ok := false;
          continue;
        }
        SafeService(Now(), orig, svc);
        var clean := StripTunGateway(current.value);
        if |clean| == |current.value| {
          continue;
        }
        if |clean| == 0 {
          clean := DHCP;
        }
        SetIsSafe(Now(), orig, svc, clean);
        var written := Set(svc, clean);
        if !written {
          ok := false;
        }
      }
    }

    /** The services of a backup are set in any order; `pending` are those whose call failed. */
    method RestoreEach(saved: Services) returns (pending: Services)
      requires Valid() && faults == {} && backup == Some(saved)
      modifies this
      ensures Valid() && old(trace) <= trace && backup == Some(saved)
      ensures pending == map[] <==> faults == {}
      ensures forall svc :: svc in pending <==> svc in saved && SetFailed(svc) in faults
      ensures forall svc :: svc in pending ==> pending[svc] == saved[svc]
      ensures forall svc :: svc in saved && svc !in pending ==> svc in dns && svc in orig && dns[svc] == orig[svc]
      ensures forall svc :: svc in old(dns) && svc !in saved ==> svc in dns && dns[svc] == old(dns)[svc]
    {
      hide Safe, Strip;
      pending := map[];
      var todo := saved.Keys;
      while todo != {}
        invariant Valid() && old(trace) <= trace && backup == Some(saved) && todo <= saved.Keys
        invariant pending == map[] <==> faults == {}
        invariant forall svc :: svc in pending <==> svc in saved && SetFailed(svc) in faults
        invariant forall svc :: svc in pending ==> svc !in todo && pending[svc] == saved[svc]
        invariant forall svc :: svc in saved && svc !in todo && svc !in pending ==>
            svc in dns && svc in orig && dns[svc] == orig[svc]
        invariant forall svc :: svc in old(dns) && svc !in saved ==> svc in dns && dns[svc] == old(dns)[svc]
        decreases todo
      {
        var svc :| svc in todo;
        todo := todo - {svc};
        SafeService(Now(), orig, svc);
        var servers := if |saved[svc]| == 0 then DHCP else saved[svc];
        SetIsSafe(Now(), orig, svc, servers);
        var written := Set(svc, servers);
        if !written {
          pending := pending[svc := saved[svc]];
        }
      }
    }

    /** Those that fail stay in the backup; when none does it is dropped. */
    method RestoreFrom(saved: Services) returns (ok: bool)
      requires Valid() && faults == {} && backup == Some(saved)
      modifies this
      ensures Valid() && old(trace) <= trace
      ensures ok <==> faults == {}
      ensures forall svc :: svc in saved ==>
                && svc in dns && svc in orig
                && if SetFailed(svc) in faults
                   then backup.Some? && svc in backup.value && backup.value[svc] == orig[svc]
                   else dns[svc] == orig[svc]
      ensures ok ==> backup.None?
      ensures backup.Some? && ReadFailed !in faults && SaveFailed !in faults && RemoveFailed !in faults ==>
                forall svc :: svc in backup.value ==> SetFailed(svc) in faults
      ensures forall svc :: svc in old(dns) && svc !in saved ==> svc in dns && dns[svc] == old(dns)[svc]
    {
      hide Safe, Strip;
      var pending := RestoreEach(saved);
      forall svc
        ensures svc in orig ==> svc in dns && (Strip(dns[svc]) == orig[svc] || svc in pending)
        ensures svc in pending ==> svc in orig && pending[svc] == orig[svc]
        ensures svc in saved ==> svc in orig && svc in dns && saved[svc] == orig[svc]
      {
        SafeService(Now(), orig, svc);
      }
      if |pending| > 0 {
        BackupIsSafe(Now(), orig, Some(pending));
        var stored := SaveBackup(pending);
        return false;
      }
      BackupIsSafe(Now(), orig, None);
      ok := RemoveBackup();
    }
  }

  // ---------------------------------------------------------------- every run

  datatype Session = TakeOver(services: seq<string>) | Restore(services: seq<string>)

  /** Any sequence of take-overs and restores, each of which may be cut short between any two of its
      primitives: at every point of the whole run each service is on its original resolvers or the
      backup file holds them. */
  method AnyRun(m: Machine, sessions: seq<Session>)
    requires m.Valid()
    modifies m
    ensures m.Valid()
    ensures forall i :: 0 <= i < |m.trace| ==> Safe(m.trace[i], m.orig)
  {
    hide Safe;
    for i := 0 to |sessions|
      invariant m.Valid()
    {
      var start := |m.trace|;
      match sessions[i] {
        case TakeOver(services) => var ok := m.TakeOver(services);
        case Restore(services) => var ok := m.Restore(services);
      }
      var stop: nat :| true;
      if start <= stop < |m.trace| {
        m.StopAt(stop);
      }
    }
  }
}
