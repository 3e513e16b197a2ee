/** The valet engine as the source writes it: tickets, the memory store and the engine as
    objects, each operation proved against ValetMachine. */
module ValetEngine {
  import opened Common
  import M = ValetMachine

  class Ticket {
    const key: string
    const dest: string
    ghost const id: nat
    const deadline: int
    var state: M.TicketState
    var outcome: Option<string>

    constructor (key: string, dest: string, deadline: int, ghost id: nat)
      ensures this.key == key && this.dest == dest && this.deadline == deadline && this.id == id
      ensures state == M.TicketOpen && outcome == None
    {
      this.key, this.dest, this.deadline, this.id := key, dest, deadline, id;
      state, outcome := M.TicketOpen, None;
    }

    ghost function View(): M.Ticket
      reads this
    {
      M.Ticket(key, dest, state, outcome)
    }
  }

  class MemoryStore {
    var tickets: map<string, Ticket>

    constructor ()
      ensures tickets == map[]
    {
      tickets := map[];
    }

    /** Stores the ticket, or returns the one already under its key. */
    method Insert(t: Ticket) returns (existing: Ticket?)
      modifies this
      ensures t.key in old(tickets) ==> existing == old(tickets)[t.key] && tickets == old(tickets)
      ensures t.key !in old(tickets) ==> existing == null && tickets == old(tickets)[t.key := t]
    {
      if t.key in tickets {
        return tickets[t.key];
      }
      tickets := tickets[t.key := t];
      return null;
    }

    method Get(key: string) returns (t: Ticket?)
      ensures t == if key in tickets then tickets[key] else null
    {
      t := if key in tickets then tickets[key] else null;
    }

    method Take(key: string) returns (t: Ticket?)
      modifies this
      ensures t == if key in old(tickets) then old(tickets)[key] else null
      ensures tickets == old(tickets) - {key}
    {
      t := if key in tickets then tickets[key] else null;
      if t != null {
        tickets := tickets - {key};
      }
    }

    /** Empties the store and returns what it held. */
    method Purge() returns (out: set<Ticket>)
      modifies this
      ensures out == old(tickets).Values && tickets == map[]
    {
      out := tickets.Values;
      tickets := map[];
    }
  }

  /** A configuration as New takes it, in nanoseconds. */
  datatype Config = Config(defaultTTL: int, maxTTL: int, maxInFlight: int, retainAfterClose: int)

  const DEFAULT_TTL := 60_000_000_000
  const DEFAULT_RETAIN_AFTER_CLOSE := 5_000_000_000

  /** The configuration New works with, or None when it refuses: on a negative number, or a
      cap below the time a ticket gets by default. */
  function Effective(cfg: Config): (r: Option<Config>)
    ensures r.None? <==>
            || cfg.defaultTTL < 0 || cfg.maxTTL < 0 || cfg.maxInFlight < 0
            || (cfg.maxTTL != 0 && cfg.maxTTL < if cfg.defaultTTL == 0 then DEFAULT_TTL else cfg.defaultTTL)
    ensures r.Some? ==>
              && Sound(r.value) && r.value.maxTTL == cfg.maxTTL && r.value.maxInFlight == cfg.maxInFlight
              && r.value.defaultTTL == (if cfg.defaultTTL == 0 then DEFAULT_TTL else cfg.defaultTTL)
              && (0 < r.value.retainAfterClose <==> 0 <= cfg.retainAfterClose)
              && (0 < cfg.retainAfterClose ==> r.value.retainAfterClose == cfg.retainAfterClose)
              && (cfg.retainAfterClose == 0 ==> r.value.retainAfterClose == DEFAULT_RETAIN_AFTER_CLOSE)
  {
    var ttl := if cfg.defaultTTL == 0 then DEFAULT_TTL else cfg.defaultTTL;
    var retain := if cfg.retainAfterClose == 0 then DEFAULT_RETAIN_AFTER_CLOSE
                  else if cfg.retainAfterClose < 0 then 0 else cfg.retainAfterClose;
    if cfg.defaultTTL < 0 || cfg.maxTTL < 0 || cfg.maxInFlight < 0 || 0 < cfg.maxTTL < ttl then None
    else Some(Config(ttl, cfg.maxTTL, cfg.maxInFlight, retain))
  }

  predicate Sound(cfg: Config) {
    0 < cfg.defaultTTL && 0 <= cfg.maxTTL && 0 <= cfg.maxInFlight && 0 <= cfg.retainAfterClose &&
    (0 < cfg.maxTTL ==> cfg.defaultTTL <= cfg.maxTTL)
  }

  /** The time a ticket gets: what the caller asked for or the default, within the cap. */
  function TicketTTL(cfg: Config, asked: int): (ttl: int)
    requires Sound(cfg)
    ensures 0 < ttl && (0 < cfg.maxTTL ==> ttl <= cfg.maxTTL)
    ensures asked <= 0 ==> ttl == cfg.defaultTTL
    ensures 0 < asked && (cfg.maxTTL == 0 || asked <= cfg.maxTTL) ==> ttl == asked
    ensures 0 < cfg.maxTTL < asked ==> ttl == cfg.maxTTL
  {
    var ttl := if asked <= 0 then cfg.defaultTTL else asked;
    if 0 < cfg.maxTTL < ttl then cfg.maxTTL else ttl
  }

  /** What Park, Redeem and Release answer; the ticket goes with it. */
  datatype ParkResult =
    | Parked | AttachedOpen | ReplayedClosed
    | ParkEmptyKey | ParkClosed | ParkDraining | ParkOverloaded
  datatype Result = Matched | AlreadyRedeemed | Unmatched | EmptyKey | EngineClosed

  function ParkResultOf(a: M.ParkAnswer): ParkResult {
    match a
    case Parked(_) => Parked
    case AttachedOpen(_) => AttachedOpen
    case ReplayedClosed(_) => ReplayedClosed
    case ParkEmptyKey => ParkEmptyKey
    case ParkClosed => ParkClosed
    case ParkDraining => ParkDraining
    case ParkOverloaded => ParkOverloaded
  }

  function ResultOf(a: M.Answer): Result {
    match a
    case Matched(_) => Matched
    case AlreadyRedeemed => AlreadyRedeemed
    case Unmatched => Unmatched
    case EmptyKey => EmptyKey
    case EngineClosed => EngineClosed
  }

  ghost function Views(ts: seq<Ticket>): (s: seq<M.Ticket>)
    reads ts
    ensures |s| == |ts| && forall i :: 0 <= i < |ts| ==> s[i] == ts[i].View()
  {
    if ts == [] then [] else Views(ts[..|ts| - 1]) + [ts[|ts| - 1].View()]
  }

  ghost function Ids(m: map<string, Ticket>): map<string, nat> {
    map k | k in m :: m[k].id
  }

  lemma IdsChange(m: map<string, Ticket>, key: string, t: Ticket)
    ensures Ids(m[key := t]) == Ids(m)[key := t.id]
    ensures Ids(m - {key}) == Ids(m) - {key}
  {
  }

  lemma NoIds()
    ensures Ids(map[]) == map[]
  {
  }

  lemma IdsAt(m: map<string, Ticket>, key: string)
    ensures key in Ids(m) <==> key in m
    ensures key in m ==> Ids(m)[key] == m[key].id
  {
  }

  class Engine {
    const cfg: Config
    const store: MemoryStore
    var mode: M.Mode
    var openCount: int
    var destCounts: map<string, int>
    var retained: map<string, Ticket>
    ghost var all: seq<Ticket>
    ghost var expired: seq<nat>

    ghost predicate Numbered()
      reads this`all, this`retained, store, all
    {
      && Sound(cfg)
      && (forall i :: 0 <= i < |all| ==> all[i].id == i)
      && (forall k :: k in store.tickets ==>
                        store.tickets[k].id < |all| && all[store.tickets[k].id] == store.tickets[k])
      && (forall k :: k in retained ==> retained[k].id < |all| && all[retained[k].id] == retained[k])
    }

    ghost function Tickets(): (s: seq<M.Ticket>)
      reads this`all, all
      ensures |s| == |all| && forall i :: 0 <= i < |all| ==> s[i] == all[i].View()
    {
      Views(all)
    }

    ghost function View(): M.Engine
      reads this, store, all
    {
      M.Engine(if cfg.maxInFlight < 0 then 0 else cfg.maxInFlight, 0 < cfg.retainAfterClose, mode, Tickets(),
               Ids(store.tickets), Ids(retained), openCount, destCounts, expired)
    }

    ghost predicate Valid()
      reads this, store, all
    {
      Numbered() && M.Inv(View())
    }

    constructor (cfg: Config)
      requires Sound(cfg)
      ensures cfg == this.cfg && View() == M.New(cfg.maxInFlight, 0 < cfg.retainAfterClose)
      ensures Valid() && fresh(store)
    {
      this.cfg := cfg;
      store := new MemoryStore();
      mode, openCount, destCounts, retained := M.Running, 0, map[], map[];
      all, expired := [], [];
    }

    lemma SoundConfig()
      requires Numbered()
      ensures Sound(cfg)
    {
    }

    /** The ticket an answer speaks of. */
    ghost predicate IsTicket(t: Ticket?, id: nat)
      reads this
    {
      t != null && id < |all| && t == all[id]
    }

    method CountUp(dest: string)
      modifies this`openCount, this`destCounts
      ensures openCount == old(openCount) + 1
      ensures destCounts == old(destCounts)[dest := M.Get(old(destCounts), dest) + 1]
    {
      openCount := openCount + 1;
      destCounts := destCounts[dest := (if dest in destCounts then destCounts[dest] else 0) + 1];
    }

    method DecOpen(dest: string)
      modifies this`openCount, this`destCounts
      ensures openCount == old(openCount) - 1
      ensures destCounts == M.CountDown(old(destCounts), dest)
    {
      openCount := openCount - 1;
      var n := if dest in destCounts then destCounts[dest] else 0;
      if n <= 1 {
        destCounts := destCounts - {dest};
      } else {
        destCounts := destCounts[dest := n - 1];
      }
    }

    /** What is stored or kept under a key is one of the engine's tickets. */
    lemma Known(key: string)
      requires Numbered()
      ensures key in store.tickets ==> IsTicket(store.tickets[key], store.tickets[key].id) && store.tickets[key] in all
      ensures key in retained ==> IsTicket(retained[key], retained[key].id)
    {
    }

    /** Creates and stores the ticket of a new key. */
    method Admit(key: string, dest: string, deadline: int) returns (t: Ticket)
      requires Numbered() && key !in store.tickets
      modifies this`all, store
      ensures Numbered() && fresh(t) && all == old(all) + [t]
      ensures t.key == key && t.dest == dest && t.deadline == deadline
      ensures Tickets() == old(Tickets()) + [M.Ticket(key, dest, M.TicketOpen, None)]
      ensures Ids(store.tickets) == old(Ids(store.tickets))[key := |old(all)|]
    {
      hide Views;
      t := new Ticket(key, dest, deadline, |all|);
      var lost := store.Insert(t);
      IdsChange(old(store.tickets), key, t);
      all := all + [t];
      assert Tickets() == old(Tickets()) + [t.View()];
    }

    /** A new ticket, stored and counted. */
    method ParkNew(key: string, dest: string, deadline: int) returns (t: Ticket)
      requires Numbered() && key !in store.tickets
      modifies this, store
      ensures Numbered() && fresh(t) && all == old(all) + [t]
      ensures t.key == key && t.dest == dest && t.deadline == deadline
      ensures View() == old(View()).(tickets := old(View()).tickets + [M.Ticket(key, dest, M.TicketOpen, None)],
                                     store := old(View()).store[key := |old(View()).tickets|],
                                     openCount := old(openCount) + 1,
                                     destCounts := old(destCounts)[dest := M.Get(old(destCounts), dest) + 1])
    {
      hide Views, Ids;
      t := Admit(key, dest, deadline);
      CountUp(dest);
    }

    method Park(key: string, dest: string, ttl: int, now: int) returns (result: ParkResult, t: Ticket?)
      requires Valid()
      modifies this, store
      ensures Valid() && View() == M.Park(old(View()), key, dest)
      ensures var answer := M.ParkAnswerOf(old(View()), key);
              && result == ParkResultOf(answer)
              && (answer.Parked? || answer.AttachedOpen? || answer.ReplayedClosed? ==> IsTicket(t, answer.id))
      ensures result.Parked? ==>
                && fresh(t) && all == old(all) + [t] && t.key == key && t.dest == dest
                && t.deadline == now + TicketTTL(cfg, ttl)
      ensures !result.Parked? ==> all == old(all)
    {
      hide M.Inv, Numbered, Views, Ids;
      M.ParkStepKeeps(View(), key, dest);
      SoundConfig();
      Known(key);
      IdsAt(store.tickets, key);
      IdsAt(retained, key);
      if key == "" {
        return ParkEmptyKey, null;
      }
      if mode.Closed? {
        return ParkClosed, null;
      }
      var existing := store.Get(key);
      if existing != null {
        return AttachedOpen, existing;
      }
      if key in retained {
        return ReplayedClosed, retained[key];
      }
      if mode.Draining? {
        return ParkDraining, null;
      }
      if 0 < cfg.maxInFlight <= openCount {
        return ParkOverloaded, null;
      }
      t := ParkNew(key, dest, now + TicketTTL(cfg, ttl));
      return Parked, t;
    }

    /** Marks a ticket. */
    method Mark(t: Ticket, state: M.TicketState, outcome: Option<string>)
      requires Numbered() && t.id < |all| && all[t.id] == t
      modifies t
      ensures Numbered()
      ensures Tickets() == old(Tickets())[t.id := old(t.View()).(state := state, outcome := outcome)]
    {
      hide Views;
      t.state := state;
      t.outcome := outcome;
      assert Tickets() == old(Tickets())[t.id := t.View()];
    }

    /** Takes the open ticket of a key out of the store, marks it and counts it out. */
    method SettleTicket(key: string, state: M.TicketState, outcome: Option<string>) returns (t: Ticket)
      requires Numbered() && key in store.tickets
      modifies this`openCount, this`destCounts, store, store.tickets[key]
      ensures Numbered() && t == old(store.tickets)[key] && t.id < |all| && all[t.id] == t
      ensures View() == M.Settle(old(View()), key, state, outcome)
    {
      hide Numbered, Views, Ids, M.CountDown;
      t := TakeTicket(key);
      Mark(t, state, outcome);
      DecOpen(t.dest);
    }

    /** Takes the ticket of a key out of the store. */
    method TakeTicket(key: string) returns (t: Ticket)
      requires Numbered() && key in store.tickets
      modifies store
      ensures Numbered() && t == old(store.tickets)[key] && t.id < |all| && all[t.id] == t
      ensures Ids(store.tickets) == old(Ids(store.tickets)) - {key}
      ensures key in old(Ids(store.tickets)) && old(Ids(store.tickets))[key] == t.id
    {
      hide Views;
      IdsAt(store.tickets, key);
      IdsChange(store.tickets, key, store.tickets[key]);
      var taken := store.Take(key);
      t := taken;
    }

    /** Keeps a redeemed ticket for replay, when outcomes are kept. */
    method Retain(key: string, t: Ticket)
      requires Numbered() && t.id < |all| && all[t.id] == t
      modifies this`retained
      ensures Numbered()
      ensures View() == if 0 < cfg.retainAfterClose then old(View()).(retained := old(View()).retained[key := t.id])
                        else old(View())
    {
      hide Views, Ids;
      if 0 < cfg.retainAfterClose {
        IdsChange(retained, key, t);
        retained := retained[key := t];
      }
    }

    method Redeem(key: string, outcome: Option<string>) returns (result: Result, t: Ticket?)
      requires Valid()
      modifies this, store, all
      ensures Valid() && all == old(all) && View() == M.Redeem(old(View()), key, outcome)
      ensures var answer := M.RedeemAnswerOf(old(View()), key);
              result == ResultOf(answer) && (answer.Matched? ==> IsTicket(t, answer.id))
    {
      hide M.Inv, M.Linked, M.Settle, Numbered, Views, Ids;
      M.RedeemKeeps(View(), key, outcome);
      IdsAt(store.tickets, key);
      IdsAt(retained, key);
      if key == "" {
        return EmptyKey, null;
      }
      if mode.Closed? {
        return EngineClosed, null;
      }
      if key !in store.tickets {
        return if key in retained then AlreadyRedeemed else Unmatched, null;
      }
      Known(key);
      t := SettleTicket(key, M.TicketClosed, outcome);
      Retain(key, t);
      return Matched, t;
    }

    method Release(key: string) returns (result: Result)
      requires Valid()
      modifies this, store, all
      ensures Valid() && all == old(all) && View() == M.Release(old(View()), key)
      ensures result == ResultOf(M.ReleaseAnswerOf(old(View()), key))
    {
      hide M.Inv, M.Linked, M.Settle, Views, Ids;
      M.ReleaseKeeps(View(), key);
      IdsAt(store.tickets, key);
      IdsAt(retained, key);
      if key == "" {
        return EmptyKey;
      }
      if mode.Closed? {
        return EngineClosed;
      }
      if key !in store.tickets {
        return Unmatched;
      }
      var t := SettleTicket(key, M.TicketReleased, store.tickets[key].outcome);
      return Matched;
    }

    /** The number of a stored ticket says which one it is. */
    lemma SameTicket(t: Ticket)
      requires Numbered() && t.id < |all| && all[t.id] == t
      ensures t.key in store.tickets ==> (store.tickets[t.key].id == t.id <==> store.tickets[t.key] == t)
    {
    }

    /** The expiry timer of `t` fires. `called` is whether OnExpire is invoked with it. */
    method Expire(t: Ticket) returns (called: bool)
      requires Valid() && t.id < |all| && all[t.id] == t
      modifies this, store, all
      ensures Valid() && all == old(all) && View() == M.Expire(old(View()), t.id)
      ensures called <==> expired == old(expired) + [t.id]
    {
      hide M.Inv, M.Linked, M.Settle, Numbered, Views, Ids;
      M.ExpireKeeps(View(), t.id);
      SameTicket(t);
      IdsAt(store.tickets, t.key);
      if mode.Closed? {
        return false;
      }
      var cur := store.Get(t.key);
      if cur != t {
        return false;
      }
      var taken := SettleTicket(t.key, M.TicketExpired, t.outcome);
      expired := expired + [t.id];
      return true;
    }

    /** The retention timer of `t` fires. */
    method Purge(t: Ticket)
      requires Valid() && t.id < |all| && all[t.id] == t
      modifies this`retained
      ensures Valid() && View() == M.Purge(old(View()), t.id)
    {
      hide M.Inv, Views, Ids;
      M.PurgeKeeps(View(), t.id);
      IdsAt(store.tickets, t.key);
      IdsAt(retained, t.key);
      if t.key in retained && retained[t.key] == t {
        IdsChange(retained, t.key, t);
        retained := retained - {t.key};
      }
    }

    /** The noted count of each destination asked for. */
    method CountsFor(dests: seq<string>) returns (out: map<string, int>)
      ensures forall d :: d in out <==> d in dests
      ensures forall d :: d in out ==> out[d] == M.Get(destCounts, d)
    {
      out := map[];
      for i := 0 to |dests|
        invariant forall d :: d in out <==> d in dests[..i]
        invariant forall d :: d in out ==> out[d] == M.Get(destCounts, d)
      {
        out := out[dests[i] := if dests[i] in destCounts then destCounts[dests[i]] else 0];
        assert dests[..i + 1] == dests[..i] + [dests[i]];
      }
      assert dests[..|dests|] == dests;
    }

    /** The open-ticket count of each destination asked for. */
    method InFlightSnapshot(dests: seq<string>) returns (out: map<string, int>)
      requires Valid()
      ensures forall d :: d in out <==> d in dests
      ensures forall d :: d in out ==> out[d] == |M.OpenTo(View().tickets, View().store, d)|
    {
      out := CountsFor(dests);
      hide M.Linked, M.Tidy, M.ExpiredOnce, M.Bounded, M.OpenTo, Views, Ids;
    }

    /** Refuses new parks from here on. The wait that follows ends well only with no open
        ticket. */
    method BeginDrain() returns (ok: bool)
      requires Valid()
      modifies this`mode
      ensures Valid() && View() == M.BeginDrain(old(View())) && ok == !old(mode).Closed?
    {
      hide M.Inv, Views, Ids;
      M.DrainKeeps(View());
      ok := !mode.Closed?;
      if ok {
        mode := M.Draining;
      }
    }

    /** How a drain that has stopped waiting answers: an error exactly while tickets are
        open, with their number. */
    method EndDrain() returns (err: Option<int>)
      requires Valid()
      ensures err.None? <==> View().store == map[]
      ensures err.Some? ==> err.value == |View().store|
    {
      err := if openCount > 0 then Some(openCount) else None;
      assert |View().store| == 0 <==> View().store == map[];
      hide M.Counted, M.Linked, M.Tidy, M.ExpiredOnce, Views, Ids;
    }

    method Close()
      requires Valid()
      modifies this, store
      ensures Valid() && all == old(all) && View() == M.Close(old(View()))
    {
      hide M.Inv, Views, Ids;
      M.CloseKeeps(View());
      if mode.Closed? {
        return;
      }
      mode := M.Closed;
      var open := store.Purge();
      NoIds();
      retained := map[];
      openCount := 0;
      destCounts := map[];
    }
  }
}
