/**
 DNS records at the provider: making a host resolve to an address, and removing
 again what was created, while API calls fail at will and other parties edit
 the zone between any two calls.
 */
module DnsRecords {
  import opened Options

  datatype Kind = A | AAAA | CNAME | Other

  datatype Record = Record(zone: nat, kind: Kind, name: string, content: string, proxied: bool)

  /** An entry of the bookkeeping: a record that belongs to aoox. */
  datatype Managed = Managed(zone: nat, id: nat, kind: Kind, name: string, content: string)

  type Records = map<nat, Record>

  datatype Action = Created | Updated(takeover: bool) | Deleted

  /** A write aoox issued, to which zone, and whether the record was already its own. */
  datatype Write = Write(zone: nat, id: nat, action: Action, own: bool)

  /** Own records may be changed and deleted; others only updated under `overwrite`. */
  ghost predicate Allowed(w: Write) {
    w.own || w.action == Created || w.action == Updated(true)
  }

  datatype Answer = Done | NotFound | Error

  /** Everything recorded so far. */
  datatype Log = Log(writes: seq<Write>, moments: seq<Records>, zones: seq<Option<nat>>, listings: seq<seq<(nat, Record)>>)

  /** Exactly the records of this zone and name. */
  ghost predicate ListingOf(listed: seq<(nat, Record)>, at: Records, zone: nat, name: string) {
    && (forall k | 0 <= k < |listed| ::
          && listed[k].0 in at && at[listed[k].0] == listed[k].1 && listed[k].1.zone == zone && listed[k].1.name == name)
    && forall i | i in at && at[i].zone == zone && at[i].name == name :: (i, at[i]) in listed
  }

  // ---- the provider -------------------------------------------------------------

  class Provider {
    var records: Records
    var next: nat
    /** Records aoox created or took over. */
    ghost var ours: set<nat>
    ghost var writes: seq<Write>
    /** The zone as it was right after each call. */
    ghost var moments: seq<Records>
    /** Calls that answered with an error, calls that did not find their record, and what the lookups answered. */
    ghost var errors: nat
    ghost var misses: nat
    ghost var zones: seq<Option<nat>>
    ghost var listings: seq<seq<(nat, Record)>>

    ghost predicate Valid()
      reads this
    {
      (forall i | i in records :: i < next) && (forall i | i in ours :: i < next)
    }

    ghost function Recorded(): Log
      reads this
    {
      Log(writes, moments, zones, listings)
    }

    /** The last call left the zones as they are now. */
    ghost predicate Latest()
      reads this
    {
      moments != [] && moments[|moments| - 1] == records
    }

    ghost predicate AllAllowed(from: nat)
      reads this
    {
      forall k | from <= k < |writes| :: Allowed(writes[k])
    }

    /** Some moment since `from` showed such a record in the zone. */
    ghost predicate Showed(from: nat, zone: nat, kind: Kind, host: string, ip: string)
      reads this
    {
      exists k, i :: from <= k < |moments| && i in moments[k]
        && moments[k][i] == Record(zone, kind, host, ip, moments[k][i].proxied)
    }

    /** Some moment since `from` showed this record exactly as wanted. */
    ghost predicate Held(from: nat, zone: nat, id: nat, kind: Kind, host: string, ip: string, proxied: bool)
      reads this
    {
      exists k :: from <= k < |moments| && id in moments[k] && moments[k][id] == Record(zone, kind, host, ip, proxied)
    }

    /** The last call did not find its record: others had deleted it. */
    ghost predicate FoundNone(before: nat)
      reads this
    {
      misses > before && writes != [] && moments != [] && writes[|writes| - 1].id !in moments[|moments| - 1]
    }

    /** Other parties may have edited the zone since the last call. */
    method Interfere()
      requires Valid()
      modifies this`records, this`next
      ensures Valid() && next >= old(next) && EditOf(old(records), records, old(next))
    {
      var r: Records := *;
      var n: nat := *;
      if n >= next && EditOf(records, r, next) && (forall i | i in r :: i < n) {
        records, next := r, n;
      }
    }

    method FindZone(host: string) returns (ok: bool, zone: Option<nat>)
      requires Valid()
      modifies this`records, this`next, this`errors, this`zones
      ensures errors == old(errors) + (if ok then 0 else 1)
      ensures zones == if ok then old(zones) + [zone] else old(zones)
      ensures Valid() && next >= old(next) && EditOf(old(records), records, old(next))
    {
      Interfere();
      ok, zone := *, *;
      if ok { zones := zones + [zone]; } else { errors := errors + 1; }
    }

    /** The records of a name, as they were when the provider answered. */
    method List(zone: nat, name: string) returns (ok: bool, listed: seq<(nat, Record)>)
      requires Valid()
      modifies this`records, this`next, this`moments, this`errors, this`listings
      ensures errors == old(errors) + (if ok then 0 else 1)
      ensures listings == if ok then old(listings) + [listed] else old(listings)
      ensures Valid() && next >= old(next) && EditOf(old(records), records, old(next))
      ensures moments == old(moments) + [records]
      ensures ok ==> ListingOf(listed, records, zone, name)
    {
      Interfere();
      ok, listed := *, [];
      var left := records.Keys;
      while left != {}
        invariant left <= records.Keys
        invariant forall k | 0 <= k < |listed| ::
                    && listed[k].0 in records && records[listed[k].0] == listed[k].1
                    && listed[k].1.zone == zone && listed[k].1.name == name
        invariant forall i | i in records && i !in left && records[i].zone == zone && records[i].name == name ::
                    (i, records[i]) in listed
        decreases left
      {
        var i :| i in left;
        left := left - {i};
        if records[i].zone == zone && records[i].name == name {
          listed := listed + [(i, records[i])];
        }
      }
      if ok { listings := listings + [listed]; } else { errors := errors + 1; }
      moments := moments + [records];
    }

    method CreateRecord(r: Record) returns (id: Option<nat>)
      requires Valid()
      modifies this
      ensures errors == old(errors) + (if id.Some? then 0 else 1) && misses == old(misses)
      ensures zones == old(zones) && listings == old(listings)
      ensures Valid() && next >= old(next) && old(ours) <= ours && EditOf(old(records), records, old(next))
      ensures writes == old(writes) || exists i :: writes == old(writes) + [Write(r.zone, i, Created, false)]
      ensures id.Some? ==> writes == old(writes) + [Write(r.zone, id.value, Created, false)]
      ensures |moments| == |old(moments)| + 1 && old(moments) <= moments && moments[|old(moments)|] == records
      ensures id.Some? ==> id.value in ours && id.value in records && records[id.value] == r && id.value >= old(next)
    {
      Interfere();
      var done: bool, lost: bool := *, *;
      id := None;
      if done {
        writes := writes + [Write(r.zone, next, Created, false)];
        records := records[next := r];
        ours := ours + {next};
        if !lost { id := Some(next); }
        next := next + 1;
      }
      errors := errors + if id.Some? then 0 else 1;
      moments := moments + [records];
    }

    /** Patches content and proxying; `takeover` marks an update under `overwrite`. */
    method UpdateRecord(zone: nat, id: nat, content: string, proxied: bool, takeover: bool) returns (a: Answer)
      requires Valid() && id < next
      modifies this
      ensures Counted(a, old(errors), old(misses)) && zones == old(zones) && listings == old(listings)
      ensures Valid() && next >= old(next) && old(ours) <= ours <= old(ours) + (if takeover then {id} else {})
      ensures EditOf(old(records), records, old(next))
      ensures a == Done && takeover ==> id in ours
      ensures writes == old(writes) + [Write(zone, id, Updated(takeover), id in old(ours))]
      ensures |moments| == |old(moments)| + 1 && old(moments) <= moments && moments[|old(moments)|] == records
      ensures a == Done ==> id in old(records) && id in records &&
                            records[id] == old(records)[id].(content := content, proxied := proxied) && records[id].zone == zone
      ensures a == NotFound ==> !(id in records && records[id].zone == zone)
    {
      Interfere();
      ghost var was := ours;
      a := Patch(zone, id, content, proxied, takeover);
      Count(a);
      writes, moments := writes + [Write(zone, id, Updated(takeover), id in was)], moments + [records];
    }

    /** The change itself, if the record is there and the call gets through; a lost answer counts as an error. */
    method Patch(zone: nat, id: nat, content: string, proxied: bool, takeover: bool) returns (a: Answer)
      requires Valid() && id < next
      modifies this`records, this`ours
      ensures Valid() && old(ours) <= ours <= old(ours) + (if takeover then {id} else {})
      ensures records == old(records) ||
              (id in old(records) && records == old(records)[id := old(records)[id].(content := content, proxied := proxied)])
      ensures a == Done ==> id in records && records[id] == old(records)[id].(content := content, proxied := proxied)
      ensures a == Done ==> records[id].zone == zone && (takeover ==> id in ours)
      ensures a == NotFound ==> !(id in records && records[id].zone == zone)
    {
      var done: bool, lost: bool := *, *;
      var there := id in records && records[id].zone == zone;
      a := if !there then NotFound else if done && !lost then Done else Error;
      if done && there {
        if takeover { ours := ours + {id}; }
        records := records[id := records[id].(content := content, proxied := proxied)];
      }
    }

    method DeleteRecord(zone: nat, id: nat) returns (a: Answer)
      requires Valid()
      modifies this
      ensures Counted(a, old(errors), old(misses)) && zones == old(zones) && listings == old(listings)
      ensures Valid() && next >= old(next) && ours == old(ours)
      ensures writes == old(writes) + [Write(zone, id, Deleted, id in old(ours))]
      ensures EditOf(old(records), records, old(next))
      ensures |moments| == |old(moments)| + 1 && old(moments) <= moments && moments[|old(moments)|] == records
      ensures a == Done ==> id !in records
      ensures a == NotFound ==> !(id in records && records[id].zone == zone)
    {
      Interfere();
      var done: bool, lost: bool := *, *;
      writes := writes + [Write(zone, id, Deleted, id in ours)];
      var there := id in records && records[id].zone == zone;
      a := if !there then NotFound else if done && !lost then Done else Error;
      Count(a);
      if done && there {
        records := records - {id};
      }
      moments := moments + [records];
    }

    ghost predicate Counted(a: Answer, e: nat, m: nat)
      reads this
    {
      errors == e + (if a == Error then 1 else 0) && misses == m + (if a == NotFound then 1 else 0)
    }

    ghost method Count(a: Answer)
      modifies this`errors, this`misses
      ensures Counted(a, old(errors), old(misses))
    {
      if a == Error { errors := errors + 1; }
      if a == NotFound { misses := misses + 1; }
    }
  }

  /** `now` comes from `before` by edits of others: a record keeps its zone, type and name. */
  predicate EditOf(before: Records, now: Records, next: nat) {
    forall i | i in now && i < next ::
      i in before && now[i] == before[i].(content := now[i].content, proxied := now[i].proxied)
  }

  /** Where tracked records still are, they are in the zone they are tracked for. */
  ghost predicate ZonesRight(records: Records, tracked: seq<Managed>) {
    forall k | 0 <= k < |tracked| && tracked[k].id in records :: records[tracked[k].id].zone == tracked[k].zone
  }

  lemma ZonesStay(before: Records, now: Records, next: nat, tracked: seq<Managed>)
    requires ZonesRight(before, tracked) && EditOf(before, now, next)
    requires forall k | 0 <= k < |tracked| :: tracked[k].id < next
    ensures ZonesRight(now, tracked)
    ensures forall k | 0 <= k < |tracked| && tracked[k].id !in before :: tracked[k].id !in now
  {
  }

  // ---- making a host resolve -----------------------------------------------------

  datatype Status = Ok | Warning | Failure

  ghost predicate AllOurs(records: seq<Managed>, ours: set<nat>) {
    forall k | 0 <= k < |records| :: records[k].id in ours
  }

  predicate Owns(owned: seq<Managed>, id: nat) {
    exists k :: 0 <= k < |owned| && owned[k].id == id
  }

  function OfKind(owned: seq<Managed>, kind: Kind): seq<Managed> {
    if owned == [] then []
    else (if owned[0].kind == kind then [owned[0]] else []) + OfKind(owned[1..], kind)
  }

  /** The ids of the own records of one family. */
  ghost function OwnIds(owned: seq<Managed>, kind: Kind): set<nat> {
    set k | 0 <= k < |owned| && owned[k].kind == kind :: owned[k].id
  }

  lemma {:induction false} OfKindOwns(owned: seq<Managed>, kind: Kind, id: nat)
    ensures Owns(OfKind(owned, kind), id) <==> id in OwnIds(owned, kind)
  {
    if owned != [] {
      var rest := owned[1..];
      OfKindOwns(rest, kind, id);
      var here := if owned[0].kind == kind then [owned[0]] else [];
      OwnsConcat(here, OfKind(rest, kind), id);
      if id in OwnIds(owned, kind) {
        var k :| 0 <= k < |owned| && owned[k].kind == kind && owned[k].id == id;
        if k > 0 { assert rest[k - 1] == owned[k]; } else { assert here[0] == owned[0]; }
      }
      if Owns(here, id) || id in OwnIds(rest, kind) { OwnIdsRest(owned, kind); }
    }
  }

  lemma OwnIdsRest(owned: seq<Managed>, kind: Kind)
    requires owned != []
    ensures OwnIds(owned[1..], kind) <= OwnIds(owned, kind)
  {
    forall id | id in OwnIds(owned[1..], kind) ensures id in OwnIds(owned, kind) {
      var k :| 0 <= k < |owned[1..]| && owned[1..][k].kind == kind && owned[1..][k].id == id;
      assert owned[k + 1] == owned[1..][k];
    }
  }

  lemma OwnsConcat(a: seq<Managed>, b: seq<Managed>, id: nat)
    ensures Owns(a + b, id) <==> Owns(a, id) || Owns(b, id)
  {
    if Owns(a, id) {
      var k :| 0 <= k < |a| && a[k].id == id;
      assert (a + b)[k] == a[k];
    }
    if Owns(b, id) {
      var k :| 0 <= k < |b| && b[k].id == id;
      assert (a + b)[|a| + k] == b[k];
    }
  }

  predicate Lists(listed: seq<(nat, Record)>, id: nat) {
    exists k :: 0 <= k < |listed| && listed[k].0 == id
  }

  lemma ListsEntry(listed: seq<(nat, Record)>, id: nat)
    ensures Lists(listed, id) <==> exists e :: e in listed && e.0 == id
  {
    if Lists(listed, id) {
      var k :| 0 <= k < |listed| && listed[k].0 == id;
      assert listed[k] in listed;
    }
  }

  /** Own, of the other family, and listed. */
  ghost predicate Stale(m: Managed, kind: Kind, listed: seq<(nat, Record)>) {
    m.kind != kind && exists e :: e in listed && e.0 == m.id
  }

  /** The deletes of own records of the other family that are still listed, and nothing else. */
  ghost predicate StaleDeletes(writes: seq<Write>, from: nat, owned: seq<Managed>, kind: Kind, listed: seq<(nat, Record)>) {
    forall k | from <= k < |writes| :: exists j :: 0 <= j < |owned| && Stale(owned[j], kind, listed)
                                                   && writes[k] == Write(owned[j].zone, owned[j].id, Deleted, true)
  }

  lemma OneStaleMore(writes: seq<Write>, from: nat, owned: seq<Managed>, kind: Kind, listed: seq<(nat, Record)>, j: nat)
    requires StaleDeletes(writes, from, owned, kind, listed) && j < |owned| && Stale(owned[j], kind, listed)
    ensures StaleDeletes(writes + [Write(owned[j].zone, owned[j].id, Deleted, true)], from, owned, kind, listed)
  {
  }

  /** None of the own records of the other family that were listed is left. */
  ghost predicate StaleGone(records: Records, owned: seq<Managed>, kind: Kind, listed: seq<(nat, Record)>) {
    forall j | 0 <= j < |owned| && Stale(owned[j], kind, listed) :: owned[j].id !in records
  }

  lemma GoneStays(before: Records, now: Records, next: nat, owned: seq<Managed>, kind: Kind, listed: seq<(nat, Record)>)
    requires StaleGone(before, owned, kind, listed) && EditOf(before, now, next)
    requires forall k | 0 <= k < |owned| :: owned[k].id < next
    ensures StaleGone(now, owned, kind, listed)
  {
  }

  /** Deletes own records of the other address family that are still listed. */
  method DropStale(p: Provider, owned: seq<Managed>, kind: Kind, listed: seq<(nat, Record)>) returns (ok: bool)
    requires p.Valid() && AllOurs(owned, p.ours) && ZonesRight(p.records, owned) && p.Latest()
    modifies p
    ensures p.errors >= old(p.errors) && (!ok ==> p.errors > old(p.errors) || p.FoundNone(old(p.misses)))
    ensures p.misses >= old(p.misses) && (ok ==> p.misses == old(p.misses))
    ensures p.zones == old(p.zones) && p.listings == old(p.listings)
    ensures p.Valid() && p.ours == old(p.ours) && p.next >= old(p.next)
    ensures old(p.writes) <= p.writes
    ensures StaleDeletes(p.writes, |old(p.writes)|, owned, kind, listed)
    ensures ok ==> StaleGone(p.records, owned, kind, listed)
    ensures old(p.moments) <= p.moments && p.Latest()
    ensures EditOf(old(p.records), p.records, old(p.next))
  {
    for k := 0 to |owned|
      invariant p.Valid() && p.ours == old(p.ours) && p.next >= old(p.next) && ZonesRight(p.records, owned)
      invariant p.errors >= old(p.errors) && p.misses == old(p.misses) && p.zones == old(p.zones) && p.listings == old(p.listings)
      invariant old(p.writes) <= p.writes
      invariant StaleDeletes(p.writes, |old(p.writes)|, owned, kind, listed)
      invariant StaleGone(p.records, owned[..k], kind, listed)
      invariant old(p.moments) <= p.moments && p.Latest()
      invariant EditOf(old(p.records), p.records, old(p.next))
    {
      var stale := owned[k];
      assert owned[..k + 1] == owned[..k] + [stale];
      ListsEntry(listed, stale.id);
      if stale.kind != kind && Lists(listed, stale.id) {
        ghost var before, next0 := p.records, p.next;
        OneStaleMore(p.writes, |old(p.writes)|, owned, kind, listed, k);
        var a := p.DeleteRecord(stale.zone, stale.id);
        ZonesStay(before, p.records, next0, owned);
        GoneStays(before, p.records, next0, owned[..k], kind, listed);
        if a != Done { return false; }
      }
    }
    assert owned[..|owned|] == owned;
    ok := true;
  }

  /** Everything created or changed since `from` is among `records`. */
  ghost predicate Tracked(writes: seq<Write>, from: nat, records: seq<Managed>) {
    forall k | from <= k < |writes| && writes[k].action != Deleted :: Owns(records, writes[k].id)
  }

  /** At most one record is tracked after an `Ok`, and it is the one asked for. */
  ghost predicate OnlyWanted(records: seq<Managed>, zone: nat, kind: Kind, host: string, ip: string) {
    |records| <= 1 && forall k | 0 <= k < |records| :: records[k] == Managed(zone, records[k].id, kind, host, ip)
  }

  /** What `Listed` said of the zone `seen`, and what edits since then may have left. */
  ghost predicate Known(p: Provider, listed: seq<(nat, Record)>, zone: nat, host: string, m: nat, seen: Records, next0: nat)
    reads p
  {
    && m < |p.moments| && p.moments[m] == seen
    && next0 <= p.next && EditOf(seen, p.records, next0) && (forall i | i in seen :: i < next0)
    && forall k | 0 <= k < |listed| ::
        && listed[k].0 in seen && seen[listed[k].0] == listed[k].1
        && listed[k].1.zone == zone && listed[k].1.name == host
  }

  /** Brings one listed record to the wanted address. */
  method Point(p: Provider, zone: nat, entry: (nat, Record), host: string, ip: string, kind: Kind, proxied: bool, takeover: bool,
               ghost listed: seq<(nat, Record)>, ghost m: nat, ghost seen: Records, ghost next0: nat) returns (ok: bool)
    requires p.Valid() && Known(p, listed, zone, host, m, seen, next0) && entry in listed && entry.1.kind == kind
    requires takeover || entry.0 in p.ours
    modifies p
    ensures p.errors >= old(p.errors) && (!ok ==> p.errors > old(p.errors) || p.FoundNone(old(p.misses)))
    ensures p.misses >= old(p.misses) && p.zones == old(p.zones) && p.listings == old(p.listings)
    ensures p.Valid() && old(p.ours) <= p.ours && (ok ==> entry.0 in p.ours) && old(p.moments) <= p.moments
    ensures p.next >= old(p.next) && EditOf(old(p.records), p.records, old(p.next))
    ensures p.writes == old(p.writes) + [Write(zone, entry.0, Updated(takeover), entry.0 in old(p.ours))]
    ensures ok ==> p.Showed(m, zone, kind, host, ip) && p.Held(m, zone, entry.0, kind, host, ip, proxied)
    ensures (entry.0 in p.records ==> p.records[entry.0].zone == zone) && p.Latest()
  {
    var a := p.UpdateRecord(zone, entry.0, ip, proxied, takeover);
    ok := a == Done;
    assert entry.0 in p.records ==> entry.0 in seen && p.records[entry.0].zone == zone;
    if ok {
      var k := |p.moments| - 1;
      assert p.moments[k][entry.0] == Record(zone, kind, host, ip, proxied);
    }
  }

  lemma OwnsTheOne(m: Managed)
    ensures Owns([m], m.id)
  {
    assert [m][0] == m;
  }

  predicate OfType(listed: seq<(nat, Record)>, kind: Kind) {
    exists k :: 0 <= k < |listed| && listed[k].1.kind == kind
  }

  // ---- what a listing asks for ---------------------------------------------------------

  /** A listed record that is its own, of the wanted kind. */
  ghost predicate Mine(e: (nat, Record), kind: Kind, own: set<nat>) {
    e.1.kind == kind && e.0 in own
  }

  /** The first listed record of the kind. */
  ghost predicate FirstOf(listed: seq<(nat, Record)>, kind: Kind, k: nat) {
    k < |listed| && listed[k].1.kind == kind && forall j | 0 <= j < k :: listed[j].1.kind != kind
  }

  /** A record that is not its own stands in the way: an alias, or another address that must not be overwritten. */
  ghost predicate InTheWay(listed: seq<(nat, Record)>, kind: Kind, ip: string, own: set<nat>, overwrite: bool) {
    && (forall e | e in listed :: !Mine(e, kind, own))
    && ((exists e :: e in listed && e.1.kind == CNAME)
        || (!overwrite && exists k: nat :: FirstOf(listed, kind, k) && listed[k].1.content != ip))
  }

  /**
   The record to be tracked: the first own one; a foreign one that fits is left
   alone; another is taken over; where there is none a new one is made.
   */
  ghost predicate Chosen(listed: seq<(nat, Record)>, kind: Kind, ip: string, own: set<nat>, records: seq<Managed>) {
    if exists e :: e in listed && Mine(e, kind, own) then
      |records| == 1 && exists k :: 0 <= k < |listed| && Mine(listed[k], kind, own) && records[0].id == listed[k].0
                                    && forall j | 0 <= j < k :: !Mine(listed[j], kind, own)
    else if exists k: nat :: FirstOf(listed, kind, k) then
      exists k: nat :: FirstOf(listed, kind, k) &&
        if listed[k].1.content == ip then records == [] else |records| == 1 && records[0].id == listed[k].0
    else
      |records| == 1 && forall e | e in listed :: e.0 != records[0].id
  }

  /** What a listing makes of a sync that does not fail. */
  ghost predicate Judged(listed: seq<(nat, Record)>, kind: Kind, ip: string, own: set<nat>, overwrite: bool,
                         status: Status, records: seq<Managed>) {
    match status
    case Ok => !InTheWay(listed, kind, ip, own, overwrite) && Chosen(listed, kind, ip, own, records)
    case Warning => InTheWay(listed, kind, ip, own, overwrite) && records == []
    case Failure => true
  }

  /** Only own records are changed, or one under `overwrite`. */
  ghost predicate Careful(writes: seq<Write>, from: nat, overwrite: bool) {
    forall k | from <= k < |writes| ::
      Allowed(writes[k]) && (!overwrite ==> writes[k].own || writes[k].action == Created)
  }

  /** What was written and seen fits the status, and the records are those to be tracked. */
  ghost predicate SettledAs(p: Provider, w0: seq<Write>, m: nat, zone: nat, host: string, ip: string,
                            kind: Kind, proxied: bool, overwrite: bool, owned: seq<Managed>, status: Status, records: seq<Managed>)
    reads p
  {
    && w0 <= p.writes && Careful(p.writes, |w0|, overwrite) && AllOurs(records, p.ours)
    && (forall k | |w0| <= k < |p.writes| :: p.writes[k].action != Deleted)
    && match status
       case Ok =>
         && p.Showed(m, zone, kind, host, ip) && OnlyWanted(records, zone, kind, host, ip) && ZonesRight(p.records, records)
         && (records != [] ==> p.Held(m, zone, records[0].id, kind, host, ip, proxied))
         && Tracked(p.writes, |w0|, records)
       case Warning => records == [] && p.writes == w0
       case Failure => records == owned
  }

  /** Keeps a listed record in use, brought to the wanted address. */
  method UseListed(p: Provider, zone: nat, entry: (nat, Record), host: string, ip: string, kind: Kind, proxied: bool,
                   overwrite: bool, takeover: bool, owned: seq<Managed>,
                   ghost listed: seq<(nat, Record)>, ghost m: nat, ghost seen: Records, ghost next0: nat)
    returns (status: Status, records: seq<Managed>)
    requires p.Valid() && Known(p, listed, zone, host, m, seen, next0) && entry in listed && entry.1.kind == kind
    requires AllOurs(owned, p.ours) && (if takeover then overwrite else entry.0 in p.ours)
    modifies p
    ensures p.Valid() && old(p.ours) <= p.ours && old(p.moments) <= p.moments
    ensures SettledAs(p, old(p.writes), m, zone, host, ip, kind, proxied, overwrite, owned, status, records)
    ensures status != Warning && (status == Ok ==> |records| == 1 && records[0].id == entry.0) && p.Latest()
    ensures p.errors >= old(p.errors) && p.misses >= old(p.misses)
    ensures status == Failure ==> p.errors > old(p.errors) || p.FoundNone(old(p.misses))
    ensures p.next >= old(p.next) && EditOf(old(p.records), p.records, old(p.next))
    ensures p.zones == old(p.zones) && p.listings == old(p.listings)
  {
    var ok := Point(p, zone, entry, host, ip, kind, proxied, takeover, listed, m, seen, next0);
    if !ok { return Failure, owned; }
    OwnsTheOne(Managed(zone, entry.0, kind, host, ip));
    status, records := Ok, [Managed(zone, entry.0, kind, host, ip)];
  }

  /** Creates the record. */
  method CreateOne(p: Provider, zone: nat, host: string, ip: string, kind: Kind, proxied: bool, overwrite: bool,
                   owned: seq<Managed>, ghost m: nat)
    returns (status: Status, records: seq<Managed>)
    requires p.Valid() && AllOurs(owned, p.ours) && m < |p.moments|
    modifies p
    ensures p.Valid() && old(p.ours) <= p.ours && old(p.moments) <= p.moments
    ensures SettledAs(p, old(p.writes), m, zone, host, ip, kind, proxied, overwrite, owned, status, records)
    ensures status != Warning && (status == Ok ==> |records| == 1 && records[0].id >= old(p.next)) && p.Latest()
    ensures p.errors >= old(p.errors) && p.misses >= old(p.misses)
    ensures status == Failure ==> p.errors > old(p.errors) || p.FoundNone(old(p.misses))
    ensures p.next >= old(p.next) && EditOf(old(p.records), p.records, old(p.next))
    ensures p.zones == old(p.zones) && p.listings == old(p.listings)
  {
    var created := p.CreateRecord(Record(zone, kind, host, ip, proxied));
    if created.None? { return Failure, owned; }
    assert p.moments[|p.moments| - 1][created.value] == Record(zone, kind, host, ip, proxied);
    OwnsTheOne(Managed(zone, created.value, kind, host, ip));
    status, records := Ok, [Managed(zone, created.value, kind, host, ip)];
  }

  /** No own record is listed: leave what fits, overwrite if allowed, else create. */
  method SettleOther(p: Provider, zone: nat, host: string, ip: string, kind: Kind, proxied: bool, overwrite: bool,
                     owned: seq<Managed>, listed: seq<(nat, Record)>,
                     ghost own: set<nat>, ghost m: nat, ghost seen: Records, ghost next0: nat)
    returns (status: Status, records: seq<Managed>)
    requires p.Valid() && AllOurs(owned, p.ours) && p.Latest() && forall e | e in listed :: !Mine(e, kind, own)
    requires Known(p, listed, zone, host, m, seen, next0)
    modifies p
    ensures p.Valid() && old(p.ours) <= p.ours && old(p.moments) <= p.moments && p.Latest()
    ensures SettledAs(p, old(p.writes), m, zone, host, ip, kind, proxied, overwrite, owned, status, records)
    ensures Judged(listed, kind, ip, own, overwrite, status, records)
    ensures p.errors >= old(p.errors) && p.misses >= old(p.misses)
    ensures status == Failure ==> p.errors > old(p.errors) || p.FoundNone(old(p.misses))
    ensures p.next >= old(p.next) && EditOf(old(p.records), p.records, old(p.next))
    ensures p.zones == old(p.zones) && p.listings == old(p.listings)
  {
    HasAlias(listed);
    if OfType(listed, CNAME) { return Warning, []; }
    var other, at := First(listed, kind, [], false);
    if other.None? {
      NoFirst(listed, kind);
      assert forall e | e in listed :: e.0 < p.next;
      status, records := CreateOne(p, zone, host, ip, kind, proxied, overwrite, owned, m);
      return;
    }
    FirstIsOne(listed, kind, at);
    if other.value.1.content == ip {
      assert p.moments[m][other.value.0] == Record(zone, kind, host, ip, p.moments[m][other.value.0].proxied);
      status, records := Ok, [];
    } else if !overwrite {
      status, records := Warning, [];
    } else {
      status, records := UseListed(p, zone, other.value, host, ip, kind, proxied, overwrite, true, owned, listed, m, seen, next0);
    }
  }

  lemma HasAlias(listed: seq<(nat, Record)>)
    ensures OfType(listed, CNAME) <==> exists e :: e in listed && e.1.kind == CNAME
  {
    if OfType(listed, CNAME) {
      var c :| 0 <= c < |listed| && listed[c].1.kind == CNAME;
      assert listed[c] in listed;
    }
  }

  lemma NoFirst(listed: seq<(nat, Record)>, kind: Kind)
    requires forall j | 0 <= j < |listed| :: listed[j].1.kind != kind
    ensures forall k: nat :: !FirstOf(listed, kind, k)
  {
  }

  lemma FirstIsOne(listed: seq<(nat, Record)>, kind: Kind, k: nat)
    requires FirstOf(listed, kind, k)
    ensures forall j: nat | FirstOf(listed, kind, j) :: j == k
  {
  }

  /** Chooses the record to keep, update or create from what was listed. */
  method Settle(p: Provider, zone: nat, host: string, ip: string, kind: Kind, proxied: bool, overwrite: bool,
                owned: seq<Managed>, mine: seq<Managed>, listed: seq<(nat, Record)>,
                ghost own: set<nat>, ghost m: nat, ghost seen: Records, ghost next0: nat)
    returns (status: Status, records: seq<Managed>)
    requires p.Valid() && AllOurs(owned, p.ours) && own <= p.ours && p.Latest() && forall id :: Owns(mine, id) <==> id in own
    requires Known(p, listed, zone, host, m, seen, next0)
    modifies p
    ensures p.Valid() && old(p.ours) <= p.ours && old(p.moments) <= p.moments && p.Latest()
    ensures SettledAs(p, old(p.writes), m, zone, host, ip, kind, proxied, overwrite, owned, status, records)
    // An own record is kept in use; a foreign one blocks unless it fits or may be overwritten.
    ensures Judged(listed, kind, ip, own, overwrite, status, records)
    ensures p.errors >= old(p.errors) && p.misses >= old(p.misses)
    ensures status == Failure ==> p.errors > old(p.errors) || p.FoundNone(old(p.misses))
    ensures p.next >= old(p.next) && EditOf(old(p.records), p.records, old(p.next))
    ensures p.zones == old(p.zones) && p.listings == old(p.listings)
  {
    var mineListed, at := First(listed, kind, mine, true);
    if mineListed.None? {
      status, records := SettleOther(p, zone, host, ip, kind, proxied, overwrite, owned, listed, own, m, seen, next0);
      return;
    }
    var id, r := mineListed.value.0, mineListed.value.1;
    assert Mine(listed[at], kind, own) && forall j | 0 <= j < at :: !Mine(listed[j], kind, own);
    if r.content != ip || r.proxied != proxied {
      status, records := UseListed(p, zone, mineListed.value, host, ip, kind, proxied, overwrite, false, owned,
                                   listed, m, seen, next0);
    } else {
      assert p.moments[m][id] == Record(zone, kind, host, ip, proxied);
      OwnsTheOne(Managed(zone, id, kind, host, ip));
      status, records := Ok, [Managed(zone, id, kind, host, ip)];
    }
  }

  /** The first listed record of a type; with `onlyOwn`, the first one in `owned`. */
  method First(listed: seq<(nat, Record)>, kind: Kind, owned: seq<Managed>, onlyOwn: bool)
    returns (r: Option<(nat, Record)>, ghost at: nat)
    ensures r.Some? ==> at < |listed| && listed[at] == r.value && r.value.1.kind == kind && (onlyOwn ==> Owns(owned, r.value.0))
    ensures at <= |listed| && (r.None? ==> at == |listed|)
    ensures forall j | 0 <= j < at :: !(listed[j].1.kind == kind && (onlyOwn ==> Owns(owned, listed[j].0)))
  {
    for k := 0 to |listed|
      invariant forall j | 0 <= j < k :: !(listed[j].1.kind == kind && (onlyOwn ==> Owns(owned, listed[j].0)))
    {
      if listed[k].1.kind == kind && (onlyOwn ==> Owns(owned, listed[k].0)) { return Some(listed[k]), k; }
    }
    r, at := None, |listed|;
  }

  /** Deletes what is stale among the listed records, then settles on one. */
  method SyncListed(p: Provider, zone: nat, host: string, ip: string, kind: Kind, proxied: bool, overwrite: bool,
                    owned: seq<Managed>, listed: seq<(nat, Record)>, ghost m: nat, ghost seen: Records, ghost next0: nat)
    returns (status: Status, records: seq<Managed>)
    requires p.Valid() && AllOurs(owned, p.ours) && ZonesRight(p.records, owned) && p.Latest()
    requires Known(p, listed, zone, host, m, seen, next0)
    modifies p
    ensures p.Valid() && old(p.ours) <= p.ours && AllOurs(records, p.ours) && old(p.moments) <= p.moments && p.Latest()
    ensures old(p.writes) <= p.writes && Careful(p.writes, |old(p.writes)|, overwrite)
    ensures ZonesRight(p.records, records)
    ensures status == Ok ==> p.Showed(m, zone, kind, host, ip) && OnlyWanted(records, zone, kind, host, ip)
    ensures status == Ok && records != [] ==> p.Held(m, zone, records[0].id, kind, host, ip, proxied)
    ensures status != Failure ==> StaleGone(p.records, owned, kind, listed)
    ensures status == Failure ==> records == owned
    ensures Judged(listed, kind, ip, OwnIds(owned, kind), overwrite, status, records)
    ensures p.errors >= old(p.errors) && p.misses >= old(p.misses)
    ensures status == Failure ==> p.errors > old(p.errors) || p.FoundNone(old(p.misses))
    ensures p.next >= old(p.next) && EditOf(old(p.records), p.records, old(p.next))
    ensures p.zones == old(p.zones) && p.listings == old(p.listings)
    ensures status != Failure ==> Tracked(p.writes, |old(p.writes)|, records)
    ensures forall k | |old(p.writes)| <= k < |p.writes| && p.writes[k].action == Deleted ::
              exists j :: 0 <= j < |owned| && owned[j].id == p.writes[k].id && owned[j].kind != kind
  {
    ghost var before, next0' := p.records, p.next;
    var ok := DropStale(p, owned, kind, listed);
    ZonesStay(before, p.records, next0', owned);
    if !ok { return Failure, owned; }
    forall id ensures Owns(OfKind(owned, kind), id) <==> id in OwnIds(owned, kind) { OfKindOwns(owned, kind, id); }
    ghost var dropped, next1 := p.records, p.next;
    status, records := Settle(p, zone, host, ip, kind, proxied, overwrite, owned, OfKind(owned, kind), listed,
                              OwnIds(owned, kind), m, seen, next0);
    ZonesStay(dropped, p.records, next1, owned);
    GoneStays(dropped, p.records, next1, owned, kind, listed);
  }

  /**
   A sync that did not fail: no zone was found; or its records of that name were
   listed, the listing decided, and in the end nothing stale that was listed is left.
   */
  ghost predicate Accounted(l: Log, z: nat, n: nat, m: nat, end: nat, host: string, kind: Kind, ip: string, overwrite: bool,
                            owned: seq<Managed>, status: Status, records: seq<Managed>) {
    && z < |l.zones|
    && match l.zones[z]
       case None => status == Warning && records == owned
       case Some(zone) =>
         && n < |l.listings| && m < end <= |l.moments| && ListingOf(l.listings[n], l.moments[m], zone, host)
         && Judged(l.listings[n], kind, ip, OwnIds(owned, kind), overwrite, status, records)
         && StaleGone(l.moments[end - 1], owned, kind, l.listings[n])
  }

  /**
   Makes `host` resolve to `ip`. Whatever others do meanwhile, only own records
   are changed, or one record under `overwrite`; an `Ok` answer means the zone
   was seen, or left, with the record asked for.
   */
  method SyncHostRecord(p: Provider, host: string, ip: string, kind: Kind, proxied: bool, overwrite: bool, owned: seq<Managed>)
    returns (status: Status, records: seq<Managed>)
    requires p.Valid() && AllOurs(owned, p.ours) && ZonesRight(p.records, owned)
    modifies p
    ensures p.Valid() && old(p.ours) <= p.ours && AllOurs(records, p.ours) && old(p.moments) <= p.moments
    ensures old(p.writes) <= p.writes && p.AllAllowed(|old(p.writes)|)
    ensures !overwrite ==> forall k | |old(p.writes)| <= k < |p.writes| :: p.writes[k].own || p.writes[k].action == Created
    ensures ZonesRight(p.records, records)
    ensures old(p.zones) <= p.zones && old(p.listings) <= p.listings
    ensures status == Ok ==>
              && |p.zones| == |old(p.zones)| + 1 && p.zones[|old(p.zones)|].Some?
              && var zone := p.zones[|old(p.zones)|].value;
                 p.Showed(|old(p.moments)|, zone, kind, host, ip) && OnlyWanted(records, zone, kind, host, ip)
    ensures status == Ok && records != [] ==>
              p.Held(|old(p.moments)|, records[0].zone, records[0].id, kind, host, ip, proxied)
    // The zone and its listing decide, and own records of the other family that were listed are gone.
    ensures status != Failure ==>
              Accounted(p.Recorded(), |old(p.zones)|, |old(p.listings)|, |old(p.moments)|, |p.moments|,
                        host, kind, ip, overwrite, owned, status, records)
    ensures status == Failure ==> records == owned
    ensures status == Warning ==> records == [] || (records == owned && p.writes == old(p.writes))
    ensures p.errors >= old(p.errors) && p.misses >= old(p.misses)
    ensures status == Failure ==> p.errors > old(p.errors) || p.FoundNone(old(p.misses))
    ensures p.next >= old(p.next) && EditOf(old(p.records), p.records, old(p.next))
    // What was created or changed is tracked; only other-family records of its own are deleted.
    ensures status != Failure ==> Tracked(p.writes, |old(p.writes)|, records)
    ensures forall k | |old(p.writes)| <= k < |p.writes| && p.writes[k].action == Deleted ::
              exists j :: 0 <= j < |owned| && owned[j].id == p.writes[k].id && owned[j].kind != kind
  {
    var ok, zone := p.FindZone(host);
    if !ok { return Failure, owned; }
    if zone.None? { return Warning, owned; }
    var listed;
    ok, listed := p.List(zone.value, host);
    if !ok { return Failure, owned; }
    status, records := SyncListed(p, zone.value, host, ip, kind, proxied, overwrite, owned, listed,
                                  |old(p.moments)|, p.records, p.next);
  }

  /** One delete for each record, in order, each of a record of its own. */
  ghost function Deletions(records: seq<Managed>): (r: seq<Write>) {
    seq(|records|, k requires 0 <= k < |records| => Write(records[k].zone, records[k].id, Deleted, true))
  }

  /** Deletes exactly the given records; one that is already gone counts as removed. */
  method RemoveManagedRecords(p: Provider, records: seq<Managed>) returns (removed: nat, errors: seq<string>)
    requires p.Valid() && AllOurs(records, p.ours) && ZonesRight(p.records, records)
    modifies p
    ensures p.Valid() && p.ours == old(p.ours) && p.next >= old(p.next) && EditOf(old(p.records), p.records, old(p.next))
    ensures removed + |errors| == |records| && |errors| <= p.errors - old(p.errors)
    ensures old(p.moments) <= p.moments && p.zones == old(p.zones) && p.listings == old(p.listings)
    ensures p.misses >= old(p.misses)
    ensures p.writes == old(p.writes) + Deletions(records) && (records != [] ==> p.Latest())
    // Every record is gone, or reported.
    ensures forall k | 0 <= k < |records| :: records[k].id !in p.records || records[k].name in errors
  {
    removed, errors := 0, [];
    for k := 0 to |records|
      invariant p.Valid() && p.ours == old(p.ours) && removed + |errors| == k && |errors| <= p.errors - old(p.errors)
      invariant p.next >= old(p.next) && EditOf(old(p.records), p.records, old(p.next)) && ZonesRight(p.records, records)
      invariant old(p.moments) <= p.moments && p.zones == old(p.zones) && p.listings == old(p.listings)
      invariant p.misses >= old(p.misses)
      invariant p.writes == old(p.writes) + Deletions(records[..k]) && (k > 0 ==> p.Latest())
      invariant forall j | 0 <= j < k :: records[j].id !in p.records || records[j].name in errors
    {
      assert records[..k + 1] == records[..k] + [records[k]];
      assert Deletions(records[..k + 1]) ==
             Deletions(records[..k]) + [Write(records[k].zone, records[k].id, Deleted, true)];
      ghost var before, next0 := p.records, p.next;
      var a := p.DeleteRecord(records[k].zone, records[k].id);
      ZonesStay(before, p.records, next0, records);
      if a == Done || a == NotFound {
        removed := removed + 1;
      } else {
        errors := errors + [records[k].name];
      }
    }
    assert records[..|records|] == records;
  }

  // ---- domains ----------------------------------------------------------------------

  /** A domain row: its host, whether a DNS connection is set, and the records aoox owns for it. */
  datatype Domain = Domain(host: string, connected: bool, proxied: bool, records: seq<Managed>, status: Option<Status>)

  datatype Op =
    | SyncDomain(domain: nat, ip: Option<string>, kind: Kind, overwrite: bool)
    | CleanupDomain(domain: nat)
    | EditDomain(domain: nat, host: string, connected: bool, proxied: bool)
    | DropDomain(domain: nat)

  /** A write an operation may be the cause of: a foreign record only under its own `overwrite`. */
  ghost predicate Entitled(w: Write, op: Op) {
    match op
    case SyncDomain(_, _, _, overwrite) => w.own || w.action == Created || (overwrite && w.action == Updated(true))
    case CleanupDomain(_) => w.own && w.action == Deleted
    case _ => false
  }

  ghost predicate AllEntitled(writes: seq<Write>, from: nat, op: Op) {
    forall k | from <= k < |writes| :: Entitled(writes[k], op)
  }

  // ---- an account of a run ------------------------------------------------------------

  /** How far the records had come at some point of a run. */
  datatype Mark = Mark(writes: nat, moments: nat, zones: nat, listings: nat, errors: nat, misses: nat, refusals: nat)

  /** What an operation answered. */
  datatype Report = Synced(outcome: Option<Status>) | Cleaned(error: bool) | Nothing

  ghost predicate Within(m: Mark, l: Log) {
    m.writes <= |l.writes| && m.moments <= |l.moments| && m.zones <= |l.zones| && m.listings <= |l.listings|
  }

  ghost predicate Grows(l0: Log, l1: Log) {
    l0.writes <= l1.writes && l0.moments <= l1.moments && l0.zones <= l1.zones && l0.listings <= l1.listings
  }

  /** Between the two marks a zone was found and showed the record. */
  ghost predicate ShownBetween(l: Log, m0: Mark, m1: Mark, kind: Kind, host: string, ip: string) {
    m0.zones < m1.zones <= |l.zones| && l.zones[m0.zones].Some?
    && exists k, i :: m0.moments <= k < m1.moments <= |l.moments| && i in l.moments[k]
         && l.moments[k][i] == Record(l.zones[m0.zones].value, kind, host, ip, l.moments[k][i].proxied)
  }

  /** Between the two marks the zone showed the tracked record exactly as wanted. */
  ghost predicate HeldBetween(l: Log, m0: Mark, m1: Mark, r: Managed, kind: Kind, host: string, ip: string, proxied: bool) {
    exists k :: m0.moments <= k < m1.moments <= |l.moments| && r.id in l.moments[k]
      && l.moments[k][r.id] == Record(r.zone, kind, host, ip, proxied)
  }

  /** What was created or changed between the two marks is among `records`. */
  ghost predicate TrackedBetween(l: Log, m0: Mark, m1: Mark, records: seq<Managed>) {
    forall k | m0.writes <= k < m1.writes <= |l.writes| && l.writes[k].action != Deleted :: Owns(records, l.writes[k].id)
  }

  /** A call or the connection failed, or the last call met a record that others had deleted. */
  ghost predicate FailedBetween(l: Log, m0: Mark, m1: Mark) {
    || m0.errors < m1.errors || m0.refusals < m1.refusals
    || (m0.misses < m1.misses && 0 < m1.writes <= |l.writes| && 0 < m1.moments <= |l.moments|
        && l.writes[m1.writes - 1].id !in l.moments[m1.moments - 1])
  }

  /** Without a usable connection nothing is asked of the provider. */
  ghost predicate AskedNothing(m0: Mark, m1: Mark) {
    m1 == m0.(refusals := m1.refusals)
  }

  /** The sync of one row: its answer, and what happened meanwhile. */
  ghost predicate SyncAccount(l: Log, m0: Mark, m1: Mark, row: Domain, after: Domain, ip: Option<string>, kind: Kind,
                              overwrite: bool, outcome: Option<Status>) {
    && (outcome.None? <==> !row.connected) && (outcome.None? ==> after == row)
    && after == row.(records := after.records, status := if outcome.Some? then outcome else row.status)
    && (outcome == Some(Ok) ==>
          && ip.Some? && ShownBetween(l, m0, m1, kind, row.host, ip.value)
          && OnlyWanted(after.records, l.zones[m0.zones].value, kind, row.host, ip.value))
    && (outcome == Some(Ok) && after.records != [] ==>
          HeldBetween(l, m0, m1, after.records[0], kind, row.host, ip.value, row.proxied))
    && (row.connected && ip.None? ==> outcome == Some(Warning) && after.records == row.records)
    && (outcome.Some? && outcome != Some(Failure) && ip.Some? ==>
          Accounted(l, m0.zones, m0.listings, m0.moments, m1.moments, row.host, kind, ip.value, overwrite, row.records,
                    outcome.value, after.records))
    && (outcome == Some(Failure) ==> FailedBetween(l, m0, m1) && after.records == row.records)
    && (m0.refusals < m1.refusals ==> outcome == Some(Failure) && AskedNothing(m0, m1))
    && (outcome.Some? && outcome != Some(Failure) ==> TrackedBetween(l, m0, m1, after.records))
  }

  /** The cleanup of one row: every tracked record is deleted, in order, and without an error all are gone. */
  ghost predicate CleanupAccount(l: Log, m0: Mark, m1: Mark, row: Domain, error: bool) {
    && (error ==> FailedBetween(l, m0, m1)) && (m0.refusals < m1.refusals ==> error && AskedNothing(m0, m1))
    && (!row.connected ==> !error && m1 == m0)
    && (m1.refusals == m0.refusals && row.connected ==>
          && m1.writes == m0.writes + |row.records| <= |l.writes|
          && forall j {:trigger row.records[j]} | 0 <= j < |row.records| ::
               l.writes[m0.writes + j] == Write(row.records[j].zone, row.records[j].id, Deleted, true))
    && (!error && row.connected && row.records != [] ==>
          && m1.refusals == m0.refusals && 0 < m1.moments <= |l.moments|
          && forall j | 0 <= j < |row.records| :: row.records[j].id !in l.moments[m1.moments - 1])
  }

  ghost predicate OpAccount(l: Log, m0: Mark, m1: Mark, before: map<nat, Domain>, after: map<nat, Domain>, op: Op, r: Report) {
    && Within(m1, l) && m0.writes <= m1.writes
    && (forall k | m0.writes <= k < m1.writes :: Entitled(l.writes[k], op))
    && match op
       case SyncDomain(d, ip, kind, overwrite) =>
         if d !in before then r == Nothing && after == before
         else r.Synced? && d in after && after == before[d := after[d]]
              && SyncAccount(l, m0, m1, before[d], after[d], ip, kind, overwrite, r.outcome)
       case CleanupDomain(d) =>
         && after == before
         && if d !in before then r == Nothing else r.Cleaned? && CleanupAccount(l, m0, m1, before[d], r.error)
       case EditDomain(d, host, connected, proxied) =>
         r == Nothing && after == before[d := EditedRow(before, d, host, connected, proxied)]
       case DropDomain(d) => r == Nothing && after == before - {d}
  }

  function EditedRow(rows: map<nat, Domain>, d: nat, host: string, connected: bool, proxied: bool): Domain {
    if d in rows then rows[d].(host := host, connected := connected, proxied := proxied)
    else Domain(host, connected, proxied, [], None)
  }

  lemma SyncAccountStays(l0: Log, l1: Log, m0: Mark, m1: Mark, row: Domain, after: Domain, ip: Option<string>, kind: Kind,
                         overwrite: bool, outcome: Option<Status>)
    requires SyncAccount(l0, m0, m1, row, after, ip, kind, overwrite, outcome) && Grows(l0, l1) && Within(m1, l0)
    ensures SyncAccount(l1, m0, m1, row, after, ip, kind, overwrite, outcome)
  {
    if outcome.Some? && outcome != Some(Failure) && ip.Some? {
      AccountedStays(l0, l1, m0.zones, m0.listings, m0.moments, m1.moments, row.host, kind, ip.value, overwrite,
                     row.records, outcome.value, after.records);
    }
    if outcome == Some(Ok) {
      ShownStays(l0, l1, m0, m1, kind, row.host, ip.value);
      if after.records != [] { HeldStays(l0, l1, m0, m1, after.records[0], kind, row.host, ip.value, row.proxied); }
    }
  }

  /** An account stays right while more is recorded. */
  lemma AccountStays(l0: Log, l1: Log, m0: Mark, m1: Mark, before: map<nat, Domain>, after: map<nat, Domain>, op: Op, r: Report)
    requires OpAccount(l0, m0, m1, before, after, op, r) && Grows(l0, l1)
    ensures OpAccount(l1, m0, m1, before, after, op, r)
  {
    if r.Synced? {
      SyncAccountStays(l0, l1, m0, m1, before[op.domain], after[op.domain], op.ip, op.kind, op.overwrite, r.outcome);
    }
  }

  lemma AccountedStays(l0: Log, l1: Log, z: nat, n: nat, m: nat, end: nat, host: string, kind: Kind, ip: string, overwrite: bool,
                       owned: seq<Managed>, status: Status, records: seq<Managed>)
    requires Accounted(l0, z, n, m, end, host, kind, ip, overwrite, owned, status, records) && Grows(l0, l1)
    ensures Accounted(l1, z, n, m, end, host, kind, ip, overwrite, owned, status, records)
  {
    assert l1.zones[z] == l0.zones[z];
    if l0.zones[z].Some? {
      assert l1.listings[n] == l0.listings[n] && l1.moments[m] == l0.moments[m] && l1.moments[end - 1] == l0.moments[end - 1];
    }
  }

  lemma ShownStays(l0: Log, l1: Log, m0: Mark, m1: Mark, kind: Kind, host: string, ip: string)
    requires ShownBetween(l0, m0, m1, kind, host, ip) && Grows(l0, l1)
    ensures ShownBetween(l1, m0, m1, kind, host, ip)
  {
    var k, i :| m0.moments <= k < m1.moments <= |l0.moments| && i in l0.moments[k]
      && l0.moments[k][i] == Record(l0.zones[m0.zones].value, kind, host, ip, l0.moments[k][i].proxied);
    assert l1.moments[k] == l0.moments[k];
  }

  lemma HeldStays(l0: Log, l1: Log, m0: Mark, m1: Mark, r: Managed, kind: Kind, host: string, ip: string, proxied: bool)
    requires HeldBetween(l0, m0, m1, r, kind, host, ip, proxied) && Grows(l0, l1)
    ensures HeldBetween(l1, m0, m1, r, kind, host, ip, proxied)
  {
    var k :| m0.moments <= k < m1.moments <= |l0.moments| && r.id in l0.moments[k]
      && l0.moments[k][r.id] == Record(r.zone, kind, host, ip, proxied);
    assert l1.moments[k] == l0.moments[k];
  }

  lemma ZonesKept(before: Records, now: Records, next: nat, rows: map<nat, Domain>, ours: set<nat>)
    requires EditOf(before, now, next) && forall i | i in ours :: i < next
    requires forall d | d in rows :: AllOurs(rows[d].records, ours) && ZonesRight(before, rows[d].records)
    ensures forall d | d in rows :: ZonesRight(now, rows[d].records)
  {
    forall d | d in rows ensures ZonesRight(now, rows[d].records) {
      ZonesStay(before, now, next, rows[d].records);
    }
  }

  class DomainDns {
    var domains: map<nat, Domain>
    const provider: Provider
    /** DNS connections that could not be used. */
    ghost var refusals: nat

    constructor (provider: Provider)
      ensures this.provider == provider && domains == map[]
    {
      this.provider := provider;
      domains := map[];
    }

    /** Every tracked record is one aoox created or took over, tracked for the zone it is in. */
    ghost predicate Valid()
      reads this, provider
    {
      provider.Valid()
      && forall d | d in domains :: AllOurs(domains[d].records, provider.ours) && ZonesRight(provider.records, domains[d].records)
    }

    ghost function Recorded(): Log
      reads provider
    {
      provider.Recorded()
    }

    ghost function Here(): Mark
      reads this, provider
    {
      Mark(|provider.writes|, |provider.moments|, |provider.zones|, |provider.listings|, provider.errors, provider.misses, refusals)
    }

    /** The stored connection of a domain, if it can be used. */
    method Connect() returns (ok: bool)
      modifies this`refusals
      ensures refusals == old(refusals) + if ok then 0 else 1
    {
      ok := *;
      refusals := refusals + if ok then 0 else 1;
    }

    /** What a sync makes of a row: its status and the records to be tracked. */
    method SyncRow(row: Domain, ip: Option<string>, kind: Kind, overwrite: bool) returns (status: Status, records: seq<Managed>)
      requires Valid() && row.connected && AllOurs(row.records, provider.ours) && ZonesRight(provider.records, row.records)
      modifies this`refusals, provider
      ensures provider.Valid() && old(provider.ours) <= provider.ours && Grows(old(Recorded()), Recorded())
      ensures AllOurs(records, provider.ours) && ZonesRight(provider.records, records)
      ensures provider.next >= old(provider.next) && EditOf(old(provider.records), provider.records, old(provider.next))
      ensures AllEntitled(provider.writes, |old(provider.writes)|, SyncDomain(0, ip, kind, overwrite))
      ensures SyncAccount(Recorded(), old(Here()), Here(), row, row.(records := records, status := Some(status)),
                          ip, kind, overwrite, Some(status))
    {
      if ip.None? { return Warning, row.records; }
      var connected := Connect();
      if !connected { return Failure, row.records; }
      status, records := SyncHostRecord(provider, row.host, ip.value, kind, row.proxied, overwrite, row.records);
    }

    /** Synchronises one domain; its row gets status and records. */
    method Sync(d: nat, ip: Option<string>, kind: Kind, overwrite: bool) returns (outcome: Option<Status>)
      requires Valid() && d in domains
      modifies this`domains, this`refusals, provider
      ensures Valid() && old(provider.ours) <= provider.ours && Grows(old(Recorded()), Recorded())
      ensures d in domains && domains == old(domains)[d := domains[d]]
      // A record that is not its own is changed only under this call's `overwrite`.
      ensures AllEntitled(provider.writes, |old(provider.writes)|, SyncDomain(d, ip, kind, overwrite))
      // What the row gets, and the reason for it.
      ensures SyncAccount(Recorded(), old(Here()), Here(), old(domains)[d], domains[d], ip, kind, overwrite, outcome)
    {
      var row := domains[d];
      if !row.connected { return None; }
      var status, records := SyncRow(row, ip, kind, overwrite);
      ZonesKept(old(provider.records), provider.records, old(provider.next), domains, old(provider.ours));
      domains := domains[d := row.(records := records, status := Some(status))];
      outcome := Some(status);
    }

    /** Deletes exactly the tracked records of a domain; the row is left as it is. */
    method Cleanup(d: nat) returns (error: bool)
      requires Valid() && d in domains
      modifies this`refusals, provider
      ensures Valid() && provider.ours == old(provider.ours)
      ensures AllEntitled(provider.writes, |old(provider.writes)|, CleanupDomain(d))
      ensures Grows(old(Recorded()), Recorded())
      ensures CleanupAccount(Recorded(), old(Here()), Here(), domains[d], error)
    {
      var records := domains[d].records;
      if !domains[d].connected || records == [] { return false; }
      var connected := Connect();
      if !connected { return true; }
      var removed, errors := RemoveManagedRecords(provider, records);
      error := errors != [];
    }

    /**
     Any sequence of syncs, cleanups and edits of the domain rows, with API
     failures and edits by others throughout. Between its two marks each operation
     did what its report says, and every write there is one it is entitled to:
     records that are not aoox's own are changed only by a sync that was asked to
     overwrite, and deleted by nobody.
     */
    method Live(ops: seq<Op>)
      returns (reports: seq<Report>, ghost marks: seq<Mark>, ghost rows: seq<map<nat, Domain>>)
      requires Valid()
      modifies this`domains, this`refusals, provider
      ensures Valid()
      ensures |reports| == |ops| && |marks| == |rows| == |ops| + 1
      ensures marks[0] == old(Here()) && marks[|ops|] == Here() && rows[0] == old(domains) && rows[|ops|] == domains
      ensures forall i {:trigger ops[i]} | 0 <= i < |ops| ::
                OpAccount(Recorded(), marks[i], marks[i + 1], rows[i], rows[i + 1], ops[i], reports[i])
      ensures (forall i | 0 <= i < |ops| :: ops[i].SyncDomain? ==> !ops[i].overwrite) ==>
                forall k | |old(provider.writes)| <= k < |provider.writes| ::
                  provider.writes[k].own || provider.writes[k].action == Created
    {
      ghost var n0, modest := |provider.writes|, forall i | 0 <= i < |ops| :: ops[i].SyncDomain? ==> !ops[i].overwrite;
      reports, marks, rows := [], [Here()], [domains];
      for i := 0 to |ops|
        invariant Valid() && |reports| == i && |marks| == |rows| == i + 1
        invariant marks[0] == old(Here()) && marks[i] == Here() && rows[0] == old(domains) && rows[i] == domains
        invariant n0 <= |provider.writes|
        invariant forall j {:trigger ops[j]} | 0 <= j < i ::
                    OpAccount(Recorded(), marks[j], marks[j + 1], rows[j], rows[j + 1], ops[j], reports[j])
        invariant modest ==> forall k | n0 <= k < |provider.writes| ::
                    provider.writes[k].own || provider.writes[k].action == Created
      {
        ghost var was := Recorded();
        var r := Perform(ops[i]);
        forall j | 0 <= j < i
          ensures OpAccount(Recorded(), marks[j], marks[j + 1], rows[j], rows[j + 1], ops[j], reports[j])
        {
          AccountStays(was, Recorded(), marks[j], marks[j + 1], rows[j], rows[j + 1], ops[j], reports[j]);
        }
        reports, marks, rows := reports + [r], marks + [Here()], rows + [domains];
      }
    }

    method PerformSync(d: nat, ip: Option<string>, kind: Kind, overwrite: bool) returns (r: Report)
      requires Valid() && d in domains
      modifies this`domains, this`refusals, provider
      ensures Valid() && Grows(old(Recorded()), Recorded())
      ensures OpAccount(Recorded(), old(Here()), Here(), old(domains), domains, SyncDomain(d, ip, kind, overwrite), r)
    {
      var outcome := Sync(d, ip, kind, overwrite);
      r := Synced(outcome);
    }

    method PerformCleanup(d: nat) returns (r: Report)
      requires Valid() && d in domains
      modifies this`refusals, provider
      ensures Valid() && Grows(old(Recorded()), Recorded())
      ensures OpAccount(Recorded(), old(Here()), Here(), domains, domains, CleanupDomain(d), r)
    {
      var error := Cleanup(d);
      r := Cleaned(error);
    }

    /** One operation; edits of a row touch no record. */
    method Perform(op: Op) returns (r: Report)
      requires Valid()
      modifies this`domains, this`refusals, provider
      ensures Valid() && Grows(old(Recorded()), Recorded())
      ensures OpAccount(Recorded(), old(Here()), Here(), old(domains), domains, op, r)
    {
      r := Nothing;
      match op
      case SyncDomain(d, ip, kind, overwrite) =>
        if d in domains { r := PerformSync(d, ip, kind, overwrite); }
      case CleanupDomain(d) =>
        if d in domains { r := PerformCleanup(d); }
      case EditDomain(d, host, connected, proxied) =>
        domains := domains[d := EditedRow(domains, d, host, connected, proxied)];
      case DropDomain(d) =>
        domains := domains - {d};
    }
  }
}
