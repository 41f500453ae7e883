/**
 * `get_inventory_data`: up to five attempt cycles; each cycle tries every proxy
 * in order, and the first usable 200 response ends the whole search. The
 * network is an oracle `net(cycle, proxy)` that tells what the request of
 * that cycle through the proxy at that position produced.
 */
module Fetch {
  import opened Wrappers
  import opened Inventory

  const MaxAttempts: nat := 5
  const CooldownSeconds: nat := 7

  /** What one request produced. */
  datatype Response =
    /** `get_session_with_proxy` or `session.get` raised (a `ProxyError` or any other exception). */
    | Raised
    /** An HTTP reply; `json` is `None` when `response.json()` raised. */
    | Reply(status: int, json: Option<Body>)

  /** The responses, by attempt cycle and proxy position. */
  type Network = (nat, nat) -> Response

  /** A request slot: the attempt cycle and the proxy position. */
  datatype Slot = Slot(cycle: nat, proxy: nat)

  /** `data.get("success") and data.get("data", {}).get("isWaiting")`: the upstream job is still queued. */
  predicate Pending(body: Body) {
    body.success == Some(true) && body.data.Some? && body.data.value.isWaiting
  }

  /** A response that ends the search: a 200 whose JSON decodes and is not pending. */
  predicate Usable(r: Response) {
    r.Reply? && r.status == 200 && r.json.Some? && !Pending(r.json.value)
  }

  /** Slot `(c, i)` is tried before slot `(c', i')`. */
  predicate Precedes(c: nat, i: nat, c': nat, i': nat) {
    c < c' || (c == c' && i < i')
  }

  /** The first usable slot at or after `(cycle, proxy)`, in the order the loops try them. */
  function Scan(n: nat, net: Network, cycle: nat, proxy: nat): (r: Option<Slot>)
    ensures r.Some? ==> Usable(net(r.value.cycle, r.value.proxy))
    decreases MaxAttempts - cycle, n - proxy
  {
    if cycle >= MaxAttempts then None
    else if proxy >= n then Scan(n, net, cycle + 1, 0)
    else if Usable(net(cycle, proxy)) then Some(Slot(cycle, proxy))
    else Scan(n, net, cycle, proxy + 1)
  }

  /** How many slots come before slot `(cycle, proxy)`: `cycle` whole passes over `n` proxies, then `proxy` more. */
  function SlotsBefore(n: nat, cycle: nat, proxy: nat): nat {
    cycle * n + proxy
  }

  /** The seconds slept after `cycles` attempt cycles that ended without a result. */
  function Cooldown(cycles: nat): nat {
    CooldownSeconds * cycles
  }

  /** The first usable slot of the whole search over `n` proxies. */
  function FirstUsable(n: nat, net: Network): Option<Slot> {
    Scan(n, net, 0, 0)
  }

  /** What the search returns: the decoded body at the first usable slot, or `None` when the cycles run out. */
  function Protocol(n: nat, net: Network): Option<Body> {
    match FirstUsable(n, net)
    case None => None
    case Some(s) => net(s.cycle, s.proxy).json
  }

  /** `Scan` finds a usable slot, and every slot it passes over on the way is unusable. */
  lemma {:induction false} ScanSound(n: nat, net: Network, c0: nat, i0: nat)
    ensures var r := Scan(n, net, c0, i0);
            r.Some? ==> && r.value.cycle < MaxAttempts && r.value.proxy < n
                        && !Precedes(r.value.cycle, r.value.proxy, c0, i0)
    ensures var r := Scan(n, net, c0, i0);
            forall c: nat, i: nat ::
              c < MaxAttempts && i < n && !Precedes(c, i, c0, i0)
              && (r.None? || Precedes(c, i, r.value.cycle, r.value.proxy))
              ==> !Usable(net(c, i))
    decreases MaxAttempts - c0, n - i0
  {
    if c0 < MaxAttempts {
      if i0 >= n {
        ScanSound(n, net, c0 + 1, 0);
      } else if !Usable(net(c0, i0)) {
        ScanSound(n, net, c0, i0 + 1);
      }
    }
  }

  /**
   * The first usable slot exists exactly when some slot of the five cycles is
   * usable, and it is the one slot that is usable with every earlier slot unusable.
   */
  lemma FirstUsableCharacterized(n: nat, net: Network)
    ensures FirstUsable(n, net).None? <==> forall c: nat, i: nat :: c < MaxAttempts && i < n ==> !Usable(net(c, i))
    ensures forall s: Slot ::
              FirstUsable(n, net) == Some(s) <==>
                && s.cycle < MaxAttempts && s.proxy < n && Usable(net(s.cycle, s.proxy))
                && forall c: nat, i: nat :: i < n && Precedes(c, i, s.cycle, s.proxy) ==> !Usable(net(c, i))
  {
    ScanSound(n, net, 0, 0);
    var r := FirstUsable(n, net);
    forall s: Slot |
      && s.cycle < MaxAttempts && s.proxy < n && Usable(net(s.cycle, s.proxy))
      && forall c: nat, i: nat :: i < n && Precedes(c, i, s.cycle, s.proxy) ==> !Usable(net(c, i))
      ensures r == Some(s)
    {
    }
  }

  /** The search gives up, returning `None`, exactly when no slot of the five cycles is usable. */
  lemma ExhaustedIffNoneUsable(n: nat, net: Network)
    ensures Protocol(n, net).None? <==> forall c: nat, i: nat :: c < MaxAttempts && i < n ==> !Usable(net(c, i))
  {
    FirstUsableCharacterized(n, net);
    ScanSound(n, net, 0, 0);
  }

  /**
   * The retry loop of `get_inventory_data`. It returns `Protocol`'s body; it
   * sends one request per slot up to and including the first usable one (all
   * 5 × |proxies| slots when there is none), and it waits seven seconds after each
   * cycle that ends without a result, counting those cycles in `attempt`.
   */
  method GetInventory(proxies: seq<string>, net: Network) returns (data: Option<Body>, requests: nat, attempt: nat, slept: nat)
    ensures data == Protocol(|proxies|, net)
    ensures FirstUsable(|proxies|, net).None? ==>
              && requests == SlotsBefore(|proxies|, MaxAttempts, 0)
              && attempt == MaxAttempts
              && slept == Cooldown(MaxAttempts)
    ensures FirstUsable(|proxies|, net).Some? ==>
              var s := FirstUsable(|proxies|, net).value;
              && requests == SlotsBefore(|proxies|, s.cycle, s.proxy) + 1
              && attempt == s.cycle
              && slept == Cooldown(s.cycle)
  {
    var n := |proxies|;
    attempt, requests, slept := 0, 0, 0;
    while attempt < MaxAttempts
      invariant attempt <= MaxAttempts
      invariant requests == SlotsBefore(n, attempt, 0)
      invariant slept == Cooldown(attempt)
      invariant Scan(n, net, attempt, 0) == FirstUsable(n, net)
    {
      var i := 0;
      while i < n
        invariant i <= n
        invariant requests == SlotsBefore(n, attempt, i)
        invariant Scan(n, net, attempt, i) == FirstUsable(n, net)
      {
        var response := net(attempt, i);
        requests := requests + 1;
        if response.Reply? && response.status == 200 {
          match response.json {
            case None =>
            case Some(body) =>
              if !Pending(body) {
                data := Some(body);
                return;
              }
          }
        }
        i := i + 1;
      }
      assert Scan(n, net, attempt, n) == Scan(n, net, attempt + 1, 0);
      assert SlotsBefore(n, attempt, n) == SlotsBefore(n, attempt + 1, 0);
      attempt := attempt + 1;
      var second := 0;
      while second < CooldownSeconds
        invariant second <= CooldownSeconds
        invariant slept == Cooldown(attempt - 1) + second
      {
        slept := slept + 1;
        second := second + 1;
      }
    }
    data := None;
  }
}
