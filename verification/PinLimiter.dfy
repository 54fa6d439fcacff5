/** The sliding-window limit on wrong PINs, over a map of bounded size. */
module PinLimiter {
  import opened Collections

  const WINDOW: int := 15 * 60 * 1_000_000_000 // nanoseconds
  const LIMIT := 5
  const MAX_IPS := 10000

  type Fails = map<string, seq<int>>

  /** The times after `cut`, in order. */
  function Live(times: seq<int>, cut: int): (r: seq<int>)
    ensures |r| <= |times|
  {
    if times == [] then []
    else
      var last := |times| - 1;
      Live(times[..last], cut) + if times[last] > cut then [times[last]] else []
  }

  function Times(f: Fails, ip: string): seq<int> {
    if ip in f then f[ip] else []
  }

  /** What is left of a map when old times go. */
  function Filtered(f: Fails, cut: int): Fails {
    map ip | ip in f && Live(f[ip], cut) != [] :: Live(f[ip], cut)
  }

  lemma {:induction false} LiveTwice(times: seq<int>, cut: int, cut': int)
    requires cut <= cut'
    ensures Live(Live(times, cut), cut') == Live(times, cut')
  {
    if times != [] {
      var last := |times| - 1;
      LiveTwice(times[..last], cut, cut');
      var r := Live(times, cut);
      if times[last] > cut {
        assert r[..|r| - 1] == Live(times[..last], cut);
      } else {
        assert r == Live(times[..last], cut);
      }
    }
  }

  lemma LiveSnoc(times: seq<int>, t: int, cut: int)
    ensures Live(times + [t], cut) == Live(times, cut) + if t > cut then [t] else []
  {
    assert (times + [t])[..|times|] == times;
  }

  /** How many times lie in the half-open window that ends at `t`. */
  function InWindow(times: seq<int>, t: int): nat {
    if times == [] then 0
    else
      var last := |times| - 1;
      InWindow(times[..last], t) + if t - 900_000_000_000 < times[last] <= t then 1 else 0
  }

  ghost predicate AtMostLimit(times: seq<int>) {
    forall t :: InWindow(times, t) <= 5
  }

  ghost predicate Upto(times: seq<int>, now: int) {
    forall i | 0 <= i < |times| :: times[i] <= now
  }

  lemma {:induction false} WindowIsLive(times: seq<int>, now: int, t: int)
    requires Upto(times, now) && now <= t
    ensures InWindow(times, t) <= |Live(times, now - 900_000_000_000)|
  {
    if times != [] {
      WindowIsLive(times[..|times| - 1], now, t);
    }
  }

  /** At the time itself it is exactly these. */
  lemma {:induction false} LiveIsWindow(times: seq<int>, now: int)
    requires Upto(times, now)
    ensures |Live(times, now - 900_000_000_000)| == InWindow(times, now)
  {
    if times != [] {
      LiveIsWindow(times[..|times| - 1], now);
    }
  }

  /** One more time keeps every window within the limit if fewer than `5` were live. */
  lemma OneMore(times: seq<int>, now: int)
    requires AtMostLimit(times) && Upto(times, now)
    requires |Live(times, now - 900_000_000_000)| < 5
    ensures AtMostLimit(times + [now])
  {
    assert (times + [now])[..|times|] == times;
    forall t ensures InWindow(times + [now], t) <= 5 {
      if t >= now {
        WindowIsLive(times, now, t);
      } else {
        assert InWindow(times, t) <= 5;
      }
    }
  }

  /** `r` is `f` without some whole entries, none of them younger at its head than one that stayed. */
  ghost predicate Evicted(f: Fails, r: Fails) {
    && (forall ip | ip in r :: ip in f && r[ip] == f[ip])
    && (forall ip, kept | ip in f && ip !in r && kept in r && f[ip] != [] && f[kept] != [] :: f[ip][0] <= f[kept][0])
  }

  ghost predicate OldestHead(f: Fails, ip: string) {
    ip in f && f[ip] != [] && forall other | other in f && f[other] != [] :: f[ip][0] <= f[other][0]
  }

  ghost predicate Past(wrong: Fails, now: int) {
    forall ip :: Upto(Times(wrong, ip), now)
  }

  /** The lists are the live part of the history. */
  ghost predicate Mirrors(f: Fails, wrong: Fails, now: int) {
    forall ip :: Times(f, ip) == Live(Times(wrong, ip), now - 900_000_000_000)
  }

  ghost predicate WithinLimit(wrong: Fails) {
    forall ip :: AtMostLimit(Times(wrong, ip))
  }

  lemma PastLater(wrong: Fails, now: int, later: int)
    requires Past(wrong, now) && now <= later
    ensures Past(wrong, later)
  {
    forall ip ensures Upto(Times(wrong, ip), later) {
      assert Upto(Times(wrong, ip), now);
    }
  }

  lemma RememberWrong(wrong: Fails, ip: string, now: int)
    requires Past(wrong, now)
    ensures Past(wrong[ip := Times(wrong, ip) + [now]], now)
  {
    var wrong' := wrong[ip := Times(wrong, ip) + [now]];
    forall a ensures Upto(Times(wrong', a), now) {
      assert Upto(Times(wrong, a), now);
    }
  }

  lemma WrongKeeps(f: Fails, wrong: Fails, ip: string, now: int)
    requires Mirrors(f, wrong, now) && WithinLimit(wrong) && Past(wrong, now)
    requires |Times(f, ip)| < 5
    ensures Mirrors(f[ip := Times(f, ip) + [now]], wrong[ip := Times(wrong, ip) + [now]], now)
    ensures WithinLimit(wrong[ip := Times(wrong, ip) + [now]])
  {
    var f', wrong' := f[ip := Times(f, ip) + [now]], wrong[ip := Times(wrong, ip) + [now]];
    forall a ensures Times(f', a) == Live(Times(wrong', a), now - 900_000_000_000) && AtMostLimit(Times(wrong', a)) {
      assert Times(f, a) == Live(Times(wrong, a), now - 900_000_000_000) && AtMostLimit(Times(wrong, a));
      if a == ip {
        assert Upto(Times(wrong, a), now);
        WrongKeepsOne(Times(f, a), Times(wrong, a), now);
      } else {
        assert Times(f', a) == Times(f, a) && Times(wrong', a) == Times(wrong, a);
      }
    }
  }

  lemma WrongKeepsOne(kept: seq<int>, times: seq<int>, now: int)
    requires kept == Live(times, now - 900_000_000_000) && |kept| < 5
    requires AtMostLimit(times) && Upto(times, now)
    ensures kept + [now] == Live(times + [now], now - 900_000_000_000)
    ensures AtMostLimit(times + [now])
  {
    OneMore(times, now);
    LiveSnoc(times, now, now - 900_000_000_000);
  }

  lemma RightKeeps(f: Fails, f': Fails, wrong: Fails, ip: string, now: int)
    requires Mirrors(f, wrong, now) && f' == f[ip := Times(f, ip)]
    ensures Mirrors(f', wrong, now)
  {
    forall a ensures Times(f', a) == Live(Times(wrong, a), now - 900_000_000_000) {
      assert Times(f, a) == Live(Times(wrong, a), now - 900_000_000_000);
    }
  }

  lemma EvictOldest(f: Fails, r: Fails, oldest: string)
    requires Evicted(f, r) && OldestHead(r, oldest)
    ensures Evicted(f, r - {oldest})
  {}

  /** The entries whose head is before, and those whose head is not after, that of the empty address. */
  ghost function Before(f: Fails): set<string>
    requires "" in f && f[""] != []
  {
    set ip | ip in f && ip != "" && f[ip] != [] && f[ip][0] < f[""][0]
  }

  ghost function NotAfter(f: Fails): set<string>
    requires "" in f && f[""] != []
  {
    set ip | ip in f && ip != "" && f[ip] != [] && f[ip][0] <= f[""][0]
  }

  /** Making room stops short at the empty address: enough entries go before its turn comes, and perhaps those
      that started at the same instant. */
  lemma RoomIff(f: Fails, r: Fails)
    requires Evicted(f, r) && "" in f && (forall ip | ip in f :: f[ip] != [])
    requires "" in r
    requires |r| <= 10000 || OldestHead(r, "")
    ensures |f| - |Before(f)| <= 10000 ==> |r| <= 10000
    ensures |f| - |NotAfter(f)| > 10000 ==> |r| > 10000
  {
    if |r| > 10000 {
      forall ip | ip in r ensures ip in f.Keys - Before(f) {}
      SubsetSize(r.Keys, f.Keys - Before(f));
      SubsetSize(Before(f), f.Keys);
      assert |f.Keys - Before(f)| == |f| - |Before(f)|;
    }
    forall ip | ip in f.Keys - NotAfter(f) ensures ip in r.Keys {
      assert ip != "" ==> f[""][0] < f[ip][0];
    }
    SubsetSize(f.Keys - NotAfter(f), r.Keys);
    SubsetSize(NotAfter(f), f.Keys);
    assert |f.Keys - NotAfter(f)| == |f| - |NotAfter(f)|;
  }

  /** The empty address is not there, and so the map is bounded: a reservation adds one to the room kept. */
  predicate NoEmpty(f: Fails) {
    "" !in f && |f| <= 10000 + 1
  }

  /** clientIP: what is before the last colon, or all of it. */
  function ClientIP(remote: string): (ip: string)
    ensures ip == "" <==> remote == ""
  {
    var i := LastColon(remote);
    if i > 0 then remote[..i] else remote
  }

  /** The port goes: what is before the last colon is the address, and without a colon all of it is. */
  lemma ClientIPIs(host: string, port: string)
    requires ':' !in port
    ensures host != "" ==> ClientIP(host + ":" + port) == host
    ensures ClientIP(port) == port
  {
    var s := host + ":" + port;
    assert s[|host|] == ':' && forall k | |host| < k < |s| :: s[k] == port[k - |host| - 1];
    assert s[..|host|] == host;
    assert forall k | 0 <= k < |port| :: port[k] in port;
  }

  function LastColon(s: string): (i: int)
    ensures -1 <= i < |s|
    ensures i >= 0 ==> s[i] == ':'
    ensures forall k | i < k < |s| :: s[k] != ':'
  {
    if s == "" then -1 else if s[|s| - 1] == ':' then |s| - 1 else LastColon(s[..|s| - 1])
  }

  class Limiter {
    var pinFails: Fails
    /** Every wrong PIN so far, by address. */
    ghost var wrong: Fails
    /** Some entry was dropped for lack of room. */
    ghost var dropped: bool
    ghost var latest: int

    /** No list is longer than the limit: holds however calls interleave. */
    ghost predicate Bounded()
      reads this
    {
      forall ip | ip in pinFails :: |pinFails[ip]| <= 5
    }

    /** Between calls that do not overlap: the lists are the live part of the history. */
    ghost predicate Valid()
      reads this
    {
      && Bounded()
      && Past(wrong, latest)
      && (!dropped ==> Mirrors(pinFails, wrong, latest) && WithinLimit(wrong))
    }

    constructor (now: int)
      ensures Valid() && pinFails == wrong == map[] && !dropped && latest == now
    {
      pinFails, wrong, dropped, latest := map[], map[], false, now;
    }

    /** pinRatePruneLocked. */
    method Prune(now: int)
      modifies this`pinFails
      ensures old(Bounded()) ==> Bounded()
      ensures Evicted(Filtered(old(pinFails), now - 900_000_000_000), pinFails)
      // what goes for lack of room is no more than needed
      ensures var f := Filtered(old(pinFails), now - 900_000_000_000); |f| <= 10000 ==> pinFails == f
      ensures |pinFails| < |Filtered(old(pinFails), now - 900_000_000_000)| ==> |pinFails| >= 10000
      // the room is kept, unless the empty address is there and its turn comes too soon
      ensures "" !in Filtered(old(pinFails), now - 900_000_000_000) ==> |pinFails| <= 10000
      ensures "" !in old(pinFails) ==> "" !in pinFails && |pinFails| <= 10000
      ensures var f := Filtered(old(pinFails), now - 900_000_000_000);
        "" in f ==>
          && "" in pinFails
          && (|f| - |Before(f)| <= 10000 ==> |pinFails| <= 10000)
          && (|f| - |NotAfter(f)| > 10000 ==> |pinFails| > 10000)
    {
      DropOld(now - WINDOW);
      ghost var f := pinFails;
      assert forall ip | ip in f :: f[ip] != [];
      while |pinFails| > MAX_IPS
        invariant Evicted(f, pinFails)
        invariant |f| <= 10000 ==> pinFails == f
        invariant |pinFails| < |f| ==> |pinFails| >= 10000
        invariant "" in f ==> "" in pinFails
        decreases |pinFails|
      {
        var oldest := Oldest();
        if oldest == "" {
          break;
        }
        EvictOldest(f, pinFails, oldest);
        ghost var before := pinFails.Keys;
        pinFails := pinFails - {oldest};
        assert pinFails.Keys == before - {oldest};
      }
      if "" in f {
        RoomIff(f, pinFails);
      }
    }

    /** The first loop: keeps, of every list, what is after `cut`. */
    method DropOld(cut: int)
      modifies this`pinFails
      ensures pinFails == Filtered(old(pinFails), cut)
    {
      var rest := pinFails.Keys;
      ghost var f := pinFails;
      while rest != {}
        invariant rest <= f.Keys
        invariant forall ip | ip in rest :: ip in pinFails && pinFails[ip] == f[ip]
        invariant forall ip | ip in pinFails && ip !in rest :: ip in f && pinFails[ip] == Live(f[ip], cut) != []
        invariant forall ip | ip in f && ip !in rest && Live(f[ip], cut) != [] :: ip in pinFails
        decreases rest
      {
        var ip :| ip in rest;
        rest := rest - {ip};
        var times := pinFails[ip];
        var kept: seq<int> := [];
        for i := 0 to |times|
          invariant kept == Live(times[..i], cut)
        {
          assert times[..i + 1][..i] == times[..i];
          if times[i] > cut {
            kept := kept + [times[i]];
          }
        }
        assert times[..|times|] == times;
        pinFails := if kept == [] then pinFails - {ip} else pinFails[ip := kept];
      }
    }

    /** The address whose list starts earliest; the empty string if there is none. */
    method Oldest() returns (oldest: string)
      requires forall ip | ip in pinFails :: pinFails[ip] != []
      ensures pinFails != map[] ==> OldestHead(pinFails, oldest)
    {
      oldest := "";
      var first, t := true, 0;
      var rest := pinFails.Keys;
      while rest != {}
        invariant rest <= pinFails.Keys
        invariant first ==> rest == pinFails.Keys
        invariant !first ==> oldest in pinFails && t == pinFails[oldest][0]
        invariant !first ==> forall ip | ip in pinFails && ip !in rest :: t <= pinFails[ip][0]
        decreases rest
      {
        var ip :| ip in rest;
        rest := rest - {ip};
        if first || pinFails[ip][0] < t {
          oldest, t, first := ip, pinFails[ip][0], false;
        }
      }
    }

    /** pinRateReserve. */
    method Reserve(ip: string, now: int) returns (ok: bool)
      modifies this`pinFails
      ensures old(Bounded()) ==> Bounded()
      ensures exists pruned: Fails ::
                && Evicted(Filtered(old(pinFails), now - 900_000_000_000), pruned)
                && (|Filtered(old(pinFails), now - 900_000_000_000)| <= 10000 ==>
                    pruned == Filtered(old(pinFails), now - 900_000_000_000))
                && ok == (|Times(pruned, ip)| < 5)
                && pinFails == if ok then pruned[ip := Times(pruned, ip) + [now]] else pruned
      ensures NoEmpty(old(pinFails)) && ip != "" ==> NoEmpty(pinFails)
    {
      Prune(now);
      ghost var pruned := pinFails;
      var kept := Times(pinFails, ip);
      ok := |kept| < LIMIT;
      if ok {
        pinFails := pinFails[ip := kept + [now]];
      }
    }

    /** pinRateClearLast. */
    method ClearLast(ip: string)
      modifies this`pinFails
      ensures old(Bounded()) ==> Bounded()
      ensures pinFails == if Times(old(pinFails), ip) != []
                then old(pinFails)[ip := old(pinFails)[ip][..|old(pinFails)[ip]| - 1]] else old(pinFails)
    {
      if ip in pinFails && |pinFails[ip]| > 0 {
        pinFails := pinFails[ip := pinFails[ip][..|pinFails[ip]| - 1]];
      }
    }

    /** deskPINCheck, not overlapping another one: a right PIN costs nothing, a wrong one is remembered, and
        as long as nothing was dropped for lack of room no window ever holds more than five wrong PINs. */
    method DeskCheck(ip: string, now: int, right: bool) returns (ok: bool)
      requires Valid() && latest <= now
      modifies this
      ensures Valid() && latest == now
      ensures !dropped ==> !old(dropped) && |Filtered(old(pinFails), now - 900_000_000_000)| <= 10000
      ensures !old(dropped) && |Filtered(old(pinFails), now - 900_000_000_000)| <= 10000 ==> !dropped
      ensures !dropped ==> (ok <==> right && InWindow(Times(old(wrong), ip), now) < 5)
      ensures ok ==> wrong == old(wrong)
      ensures !dropped && !ok ==>
                wrong == if InWindow(Times(old(wrong), ip), now) < 5
                         then old(wrong)[ip := Times(old(wrong), ip) + [now]] else old(wrong)
    {
      hide Live, Filtered, AtMostLimit, Upto, NoEmpty, Evicted, InWindow, WithinLimit;
      ghost var f := Filtered(pinFails, now - 900_000_000_000);
      if !dropped {
        FilteredIsLive(pinFails, wrong, latest, now);
        assert Times(f, ip) == Live(Times(wrong, ip), now - 900_000_000_000);
      }
      PastLater(wrong, latest, now);
      LiveIsWindow(Times(wrong, ip), now);
      var reserved := Reserve(ip, now);
      dropped := dropped || |f| > 10000;
      latest := now;
      if !reserved {
        return false;
      }
      if !right {
        if !dropped {
          WrongKeeps(f, wrong, ip, now);
        }
        RememberWrong(wrong, ip, now);
        wrong := wrong[ip := Times(wrong, ip) + [now]];
        return false;
      }
      ClearLast(ip);
      if !dropped {
        assert (Times(f, ip) + [now])[..|Times(f, ip)|] == Times(f, ip);
        RightKeeps(f, pinFails, wrong, ip, now);
      }
      return true;
    }

    /** Reservations and releases in any order, as when requests overlap: no list exceeds the limit, and if
        every request has a remote address the map exceeds its bound by one at most. */
    method Interleave(ops: seq<Op>)
      requires Bounded()
      modifies this`pinFails
      ensures Bounded()
      ensures NoEmpty(old(pinFails)) && (forall op | op in ops :: op.remote != "") ==> NoEmpty(pinFails)
    {
      for i := 0 to |ops|
        invariant Bounded()
        invariant NoEmpty(old(pinFails)) && (forall op | op in ops :: op.remote != "") ==> NoEmpty(pinFails)
      {
        assert ops[i] in ops;
        if ops[i].reserve {
          var _ := Reserve(ClientIP(ops[i].remote), ops[i].now);
        } else {
          ClearLast(ClientIP(ops[i].remote));
        }
      }
    }
  }

  datatype Op = Op(remote: string, now: int, reserve: bool)

  /** Filtering at a later time what was filtered before is filtering the history. */
  lemma FilteredIsLive(f: Fails, wrong: Fails, latest: int, now: int)
    requires latest <= now
    requires Mirrors(f, wrong, latest)
    ensures Mirrors(Filtered(f, now - 900_000_000_000), wrong, now)
  {
    forall ip ensures Times(Filtered(f, now - 900_000_000_000), ip) == Live(Times(wrong, ip), now - 900_000_000_000) {
      LiveTwice(Times(wrong, ip), latest - 900_000_000_000, now - 900_000_000_000);
      assert Times(f, ip) == Live(Times(wrong, ip), latest - 900_000_000_000);
    }
  }
}
