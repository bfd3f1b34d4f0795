// CallMessageSender::resolveDeviceList and sendContent of daemon/CallSignaling.cpp: the cache of device
// lists and the retry after a 409, for every sequence of calls, one after the other, with a clock that
// never goes back.

module DeviceLists {
  import opened Bytes

  type Device = int
  type Peer = string

  /** kDeviceListCacheTtl, in seconds. */
  const TTL := 1800

  datatype Entry = Entry(devices: seq<Device>, at: int)

  /** The history of a sender: a list was asked for and stored, one was asked for in vain, an entry was
      erased. */
  datatype Event =
    | Fetched(peer: Peer, asked: int, at: int, devices: seq<Device>)
    | FetchFailed(peer: Peer, asked: int)
    | Dropped(peer: Peer)

  datatype State = State(cache: map<Peer, Entry>, clock: int, events: seq<Event>)

  /** The answer to a PUT: extra is the non-empty extraDevices of a body that parses. */
  datatype Reply = Reply(status: int, extra: seq<Device>)

  /** One call. fetched is the list that a fetch returns, None if it throws, and storedAt the clock when
      it is stored. encrypts is false if encrypting throws. first and second are the answers to the
      PUTs, None if the request throws. */
  datatype Call = Call(
    peer: Peer, now: int, fetched: Option<seq<Device>>, storedAt: int, encrypts: bool, first: Option<Reply>,
    second: Option<Reply>)

  function Init(): State { State(map[], 0, []) }

  predicate Enabled(s: State, c: Call) { s.clock <= c.now <= c.storedAt }

  predicate Hit(s: State, c: Call) { c.peer in s.cache && c.now - s.cache[c.peer].at < TTL }

  /** resolveDeviceList: the state after it and the list, None if it throws. */
  function Resolved(s: State, c: Call): (State, Option<seq<Device>>) {
    if Hit(s, c) then (s.(clock := c.storedAt), Some(s.cache[c.peer].devices))
    else if c.fetched == None then
      (s.(clock := c.storedAt, events := s.events + [FetchFailed(c.peer, c.now)]), None)
    else
      (s.(cache := s.cache[c.peer := Entry(c.fetched.value, c.storedAt)], clock := c.storedAt,
          events := s.events + [Fetched(c.peer, c.now, c.storedAt, c.fetched.value)]), c.fetched)
  }

  /** The devices that are not among the extra ones, in order. */
  function Without(devices: seq<Device>, extra: seq<Device>): seq<Device> {
    if devices == [] then []
    else
      var last := devices[|devices| - 1];
      Without(devices[..|devices| - 1], extra) + if last in extra then [] else [last]
  }

  predicate Retries(devices: seq<Device>, first: Reply) {
    first.status == 409 && first.extra != [] && Without(devices, first.extra) != []
  }

  /** The PUTs of a call, as the devices they address. */
  function Puts(s: State, c: Call): seq<seq<Device>> {
    match Resolved(s, c).1
    case None => []
    case Some(devices) =>
      if devices == [] || !c.encrypts then []
      else if c.first.Some? && Retries(devices, c.first.value) then [devices, Without(devices, c.first.value.extra)]
      else [devices]
  }

  /** The status that decides, if any: that of the retry, or the first one where there is no retry or
      the retry throws. */
  function FinalStatus(s: State, c: Call): Option<int> {
    if |Puts(s, c)| == 0 || c.first == None then None
    else if |Puts(s, c)| == 2 && c.second.Some? then Some(c.second.value.status)
    else Some(c.first.value.status)
  }

  predicate Rejected(status: Option<int>) { status == Some(409) || status == Some(410) }

  /** sendContent. */
  function Apply(s: State, c: Call): State {
    var t := Resolved(s, c).0;
    if Rejected(FinalStatus(s, c)) then t.(cache := t.cache - {c.peer}, events := t.events + [Dropped(c.peer)])
    else t
  }

  predicate Run(calls: seq<Call>)
    decreases |calls|, 0
  {
    calls == [] ||
    (var front := calls[..|calls| - 1]; Run(front) && Enabled(After(front), calls[|calls| - 1]))
  }

  function After(calls: seq<Call>): State
    decreases |calls|, 1
  {
    if calls == [] then Init() else Apply(After(calls[..|calls| - 1]), calls[|calls| - 1])
  }

  // The retry.

  /** What is left are exactly the devices that are not extra, each as often as before. */
  lemma {:induction false} WithoutIsExact(devices: seq<Device>, extra: seq<Device>, d: Device)
    ensures multiset(Without(devices, extra))[d] == if d in extra then 0 else multiset(devices)[d]
  {
    if devices != [] {
      WithoutIsExact(devices[..|devices| - 1], extra, d);
      assert devices[..|devices| - 1] + [devices[|devices| - 1]] == devices;
    }
  }

  /** In the order of the first PUT: cutting the list in two cuts the result in two. */
  lemma {:induction false} WithoutKeepsOrder(a: seq<Device>, b: seq<Device>, extra: seq<Device>)
    ensures Without(a + b, extra) == Without(a, extra) + Without(b, extra)
  {
    if b == [] {
      assert a + b == a && Without(a, extra) + [] == Without(a, extra);
    } else {
      WithoutKeepsOrder(a, b[..|b| - 1], extra);
      assert (a + b)[..|a + b| - 1] == a + b[..|b| - 1];
    }
  }

  /** At most two PUTs; a second one only after a 409 that names extra devices, to what remains, and
      only if something does. */
  lemma AtMostTwoPuts(s: State, c: Call)
    ensures |Puts(s, c)| <= 2
    ensures forall put | put in Puts(s, c) :: put != []
    ensures |Puts(s, c)| == 2 ==>
              c.first.Some? && c.first.value.status == 409 && Puts(s, c)[1] == Without(Puts(s, c)[0], c.first.value.extra)
    ensures |Puts(s, c)| == 2 ==> forall d | d in Puts(s, c)[1] :: d in Puts(s, c)[0] && d !in c.first.value.extra
  {
    if |Puts(s, c)| == 2 {
      var devices, extra := Puts(s, c)[0], c.first.value.extra;
      forall d | d in Puts(s, c)[1] ensures d in devices && d !in extra {
        WithoutIsExact(devices, extra, d);
        assert multiset(Without(devices, extra))[d] > 0;
        assert d in multiset(devices);
      }
    }
  }

  // The cache.

  /** The list last fetched for a peer, if nothing has erased it since. */
  function LastFetch(events: seq<Event>, peer: Peer): Option<Entry> {
    if events == [] then None
    else
      match events[|events| - 1]
      case Fetched(p, _, at, devices) =>
        if p == peer then Some(Entry(devices, at)) else LastFetch(events[..|events| - 1], peer)
      case FetchFailed(_, _) => LastFetch(events[..|events| - 1], peer)
      case Dropped(p) => if p == peer then None else LastFetch(events[..|events| - 1], peer)
  }

  /** The event is a request for a list, successful or not. */
  predicate Asks(e: Event) { e.Fetched? || e.FetchFailed? }

  predicate LateEnough(events: seq<Event>, e: Event)
    requires Asks(e)
  {
    LastFetch(events, e.peer).Some? ==> e.asked - LastFetch(events, e.peer).value.at >= TTL
  }

  /** Every request comes at least the TTL after the list in the cache was stored. */
  ghost predicate Spaced(events: seq<Event>) {
    forall j | 0 <= j < |events| && Asks(events[j]) ::
      LateEnough(events[..j], events[j]) && (events[j].Fetched? ==> events[j].asked <= events[j].at)
  }

  /** The cache is what the history says. */
  ghost predicate Inv(s: State) {
    Spaced(s.events) &&
    forall p :: LastFetch(s.events, p) == if p in s.cache then Some(s.cache[p]) else None
  }

  lemma Append(events: seq<Event>, e: Event)
    requires Spaced(events)
    requires Asks(e) ==> LateEnough(events, e) && (e.Fetched? ==> e.asked <= e.at)
    ensures Spaced(events + [e])
    ensures forall p :: LastFetch(events + [e], p) ==
                        if p != e.peer || e.FetchFailed? then LastFetch(events, p)
                        else if e.Fetched? then Some(Entry(e.devices, e.at)) else None
  {
    var all := events + [e];
    assert all[..|events|] == events;
    forall j | 0 <= j < |all| && Asks(all[j])
      ensures LateEnough(all[..j], all[j]) && (all[j].Fetched? ==> all[j].asked <= all[j].at)
    {
      if j < |events| {
        assert all[..j] == events[..j] && all[j] == events[j];
      }
    }
  }

  lemma ResolveKeepsInv(s: State, c: Call)
    requires Inv(s) && Enabled(s, c)
    ensures Inv(Resolved(s, c).0)
  {
    hide Spaced, LastFetch;
    if !Hit(s, c) {
      var e := if c.fetched.Some? then Fetched(c.peer, c.now, c.storedAt, c.fetched.value) else FetchFailed(c.peer, c.now);
      Append(s.events, e);
    }
  }

  lemma DropKeepsInv(t: State, peer: Peer)
    requires Inv(t)
    ensures Inv(t.(cache := t.cache - {peer}, events := t.events + [Dropped(peer)]))
  {
    hide Spaced, LastFetch;
    Append(t.events, Dropped(peer));
  }

  lemma StepKeepsInv(s: State, c: Call)
    requires Inv(s) && Enabled(s, c)
    ensures Inv(Apply(s, c))
  {
    hide Inv, Resolved, FinalStatus;
    ResolveKeepsInv(s, c);
    DropKeepsInv(Resolved(s, c).0, c.peer);
  }

  lemma {:induction false} RunKeepsInv(calls: seq<Call>)
    requires Run(calls)
    ensures Inv(After(calls))
    decreases |calls|
  {
    hide Apply, Enabled, Inv;
    if calls == [] {
      InitInv();
    } else {
      RunKeepsInv(calls[..|calls| - 1]);
      StepKeepsInv(After(calls[..|calls| - 1]), calls[|calls| - 1]);
    }
  }

  lemma InitInv()
    ensures Inv(Init())
  {
  }

  /** A request for a peer, successful or not, comes at least 1800 s after a list for it was stored,
      unless a send to it in between ended in 409 or 410. */
  lemma FetchesSpaced(calls: seq<Call>, i: nat, j: nat)
    requires Run(calls) && i < j < |After(calls).events|
    requires After(calls).events[i].Fetched? && Asks(After(calls).events[j])
    requires After(calls).events[i].peer == After(calls).events[j].peer
    requires Dropped(After(calls).events[i].peer) !in After(calls).events[i..j]
    ensures After(calls).events[j].asked - After(calls).events[i].at >= 1800
  {
    hide Run, After;
    RunKeepsInv(calls);
    FetchStays(After(calls).events, i, j);
    assert LateEnough(After(calls).events[..j], After(calls).events[j]);
  }

  /** Up to the next erasure, the fetch that counts is this one or a later one. */
  lemma {:induction false} FetchStays(events: seq<Event>, i: nat, j: nat)
    requires Spaced(events) && i < j <= |events| && events[i].Fetched?
    requires Dropped(events[i].peer) !in events[i..j]
    ensures LastFetch(events[..j], events[i].peer).Some?
    ensures LastFetch(events[..j], events[i].peer).value.at >= events[i].at
    decreases j
  {
    hide LastFetch;
    var p, e := events[i].peer, events[j - 1];
    LastFetchBefore(events, j, p);
    assert events[i..j][j - 1 - i] == e;
    if j > i + 1 {
      assert forall d | d in events[i..j - 1] :: d in events[i..j] by {
        assert events[i..j] == events[i..j - 1] + [e];
      }
      FetchStays(events, i, j - 1);
      if Asks(e) {
        assert LateEnough(events[..j - 1], e);
      }
    }
  }

  lemma LastFetchBefore(events: seq<Event>, j: nat, p: Peer)
    requires 0 < j <= |events|
    ensures var e := events[j - 1];
            LastFetch(events[..j], p) ==
            if e.peer != p || e.FetchFailed? then LastFetch(events[..j - 1], p)
            else if e.Fetched? then Some(Entry(e.devices, e.at)) else None
  {
    assert events[..j][..j - 1] == events[..j - 1];
  }

  /** The list that a call works with: the last one fetched, while it is younger than 1800 s, and
      otherwise the one it fetches. */
  function ListFor(events: seq<Event>, c: Call): Option<seq<Device>> {
    var last := LastFetch(events, c.peer);
    if last.Some? && c.now - last.value.at < 1800 then Some(last.value.devices) else c.fetched
  }

  /** Some device of the list is not among the extra ones. */
  predicate SomeRemain(devices: seq<Device>, extra: seq<Device>) { exists d | d in devices :: d !in extra }

  lemma {:induction false} SomeRemainIff(devices: seq<Device>, extra: seq<Device>)
    ensures Without(devices, extra) != [] <==> SomeRemain(devices, extra)
  {
    if devices != [] {
      var front, last := devices[..|devices| - 1], devices[|devices| - 1];
      SomeRemainIff(front, extra);
      assert front + [last] == devices;
    }
  }

  /** The PUTs of a call in any run: one to every device of the list, unless there is none or encrypting
      fails; and after a 409 that names extra devices one more to the others, if there are any. */
  lemma PutsOfACall(calls: seq<Call>, c: Call)
    requires Run(calls) && Enabled(After(calls), c)
    ensures var s := After(calls); var list := ListFor(s.events, c);
            if list.Some? && list.value != [] && c.encrypts then
              Puts(s, c)[..Min(1, |Puts(s, c)|)] == [list.value] &&
              Puts(s, c)[Min(1, |Puts(s, c)|)..] ==
              (if c.first.Some? && c.first.value.status == 409 && c.first.value.extra != [] &&
                  SomeRemain(list.value, c.first.value.extra)
               then [Without(list.value, c.first.value.extra)] else [])
            else Puts(s, c) == []
  {
    hide Run, After, Without, SomeRemain;
    RunKeepsInv(calls);
    ResolvedList(After(calls), c);
    hide Inv, LastFetch;
    var list := ListFor(After(calls).events, c);
    if list.Some? && c.first.Some? {
      SomeRemainIff(list.value, c.first.value.extra);
    }
  }

  lemma ResolvedList(s: State, c: Call)
    requires Inv(s)
    ensures Resolved(s, c).1 == ListFor(s.events, c)
    ensures Hit(s, c) <==> LastFetch(s.events, c.peer).Some? && c.now - LastFetch(s.events, c.peer).value.at < 1800
  {
    hide Spaced;
    assert LastFetch(s.events, c.peer) == if c.peer in s.cache then Some(s.cache[c.peer]) else None;
  }

  predicate Stale(status: int) { status == 409 || status == 410 }

  /** What a call adds to the history of any run: a request if and only if the last list for the peer is
      not younger than 1800 s, so that requests that fail are followed by others at once; and an erasure
      if and only if the answer to its last PUT that was answered is 409 or 410. */
  lemma EventsOfACall(calls: seq<Call>, c: Call)
    requires Run(calls) && Enabled(After(calls), c)
    ensures var s := After(calls); var last := LastFetch(s.events, c.peer);
            Apply(s, c).events ==
            s.events
            + (if last.Some? && c.now - last.value.at < 1800 then []
               else if c.fetched.Some? then [Fetched(c.peer, c.now, c.storedAt, c.fetched.value)]
               else [FetchFailed(c.peer, c.now)])
            + (if |Puts(s, c)| > 0 && c.first.Some? &&
                  (if |Puts(s, c)| == 2 && c.second.Some? then Stale(c.second.value.status) else Stale(c.first.value.status))
               then [Dropped(c.peer)] else [])
  {
    hide Run, After, Puts;
    RunKeepsInv(calls);
    var s := After(calls);
    ResolvedList(s, c);
    hide Inv, LastFetch;
    assert s.events + [] == s.events;
  }
}

module DeviceListCache {
  import opened Bytes
  import opened DeviceLists

  class CallMessageSender {
    var deviceListCache: map<Peer, Entry>

    constructor ()
      ensures deviceListCache == Init().cache
    {
      deviceListCache := map[];
    }

    /** ok is false where it throws. */
    method ResolveDeviceList(c: Call, ghost s: State) returns (ok: bool, deviceIds: seq<Device>)
      requires s.cache == deviceListCache && Enabled(s, c)
      modifies this
      ensures deviceListCache == Resolved(s, c).0.cache
      ensures Resolved(s, c).1 == if ok then Some(deviceIds) else None
    {
      deviceIds := [];
      var cacheHit := false;
      if c.peer in deviceListCache && c.now - deviceListCache[c.peer].at < TTL {
        deviceIds := deviceListCache[c.peer].devices;
        cacheHit := true;
      }
      if !cacheHit {
        if c.fetched == None {
          return false, [];
        }
        deviceIds := c.fetched.value;
        deviceListCache := deviceListCache[c.peer := Entry(deviceIds, c.storedAt)];
      }
      return true, deviceIds;
    }

    /** puts are the lists of devices addressed, one for each request. */
    method SendContent(c: Call, ghost s: State) returns (puts: seq<seq<Device>>)
      requires s.cache == deviceListCache && Enabled(s, c)
      modifies this
      ensures deviceListCache == Apply(s, c).cache && puts == DeviceLists.Puts(s, c)
    {
      puts := [];
      var ok, deviceIds := ResolveDeviceList(c, s);
      if !ok || deviceIds == [] || !c.encrypts {
        return;
      }
      puts := [deviceIds];
      if c.first == None {
        return;
      }
      var status := c.first.value.status;
      if status == 409 && c.first.value.extra != [] {
        var retry := RetryDevices(deviceIds, c.first.value.extra);
        if retry != [] {
          puts := puts + [retry];
          if c.second.Some? {
            status := c.second.value.status;
          }
        }
      }
      if status == 409 || status == 410 {
        deviceListCache := deviceListCache - {c.peer};
      }
    }

    /** The loop that leaves out the extra devices. */
    method RetryDevices(devices: seq<Device>, extraDevices: seq<Device>) returns (retry: seq<Device>)
      ensures retry == Without(devices, extraDevices)
    {
      retry := [];
      for i := 0 to |devices|
        invariant retry == Without(devices[..i], extraDevices)
      {
        assert devices[..i + 1][..i] == devices[..i];
        if devices[i] !in extraDevices {
          retry := retry + [devices[i]];
        }
      }
      assert devices[..|devices|] == devices;
    }
  }
}
