/** Master failover of the river queue's database client (riverqueue/database.go): the order in which
    masters are tried, and one switch of the active master by itself. */
module Failover {
  import opened Wrappers
  import opened GoSlices

  // The order.

  /** Start after the current master, go round, and try the current one last. */
  function Rotation(n: nat, current: nat): seq<nat> {
    seq(n, k requires 0 <= k < n => if current + 1 + k < n then current + 1 + k else current + 1 + k - n)
  }

  /** `calculateConnectOrder`. */
  method CalculateConnectOrder(n: nat, current: nat, spare: nat) returns (order: seq<nat>)
    requires n == 0 || current < n
    ensures order == Rotation(n, current)
  {
    if n == 0 {
      return [];
    } else if n == 1 {
      return [0];
    } else if n == 2 {
      return [(current + 1) % 2, current];
    }
    var base := new nat[n];
    for i := 0 to n
      invariant forall j :: 0 <= j < i ==> base[j] == j
    {
      base[i] := i;
    }
    var result := JoinAround(base, current, spare);
    order := View(result);
  }

  /** Its two appends, to a slice of the very array they read from: the capacity of that slice ends
      with the array, so they reallocate, and nothing in the array is overwritten. */
  method JoinAround(base: array<nat>, current: nat, spare: nat) returns (result: Slice<nat>)
    requires current < base.Length && forall j :: 0 <= j < base.Length ==> base[j] == j
    modifies base
    ensures base[..] == old(base[..])
    ensures Fits(result) && fresh(result.base) && View(result) == Rotation(base.Length, current)
  {
    ghost var n, before := base.Length, base[..];
    var all := Slice(base, 0, base.Length, base.Length);
    var later, earlier := Sub(all, current + 1, base.Length), Sub(all, 0, current);
    ghost var parts := View(later) + View(earlier);
    assert parts + [current] == Rotation(n, current);
    var grew;
    result, grew := Append(later, View(earlier), spare);
    assert View(result) == parts && grew == (current > 0);
    assert base[..] == before;
    if !grew {
      assert result == later && View(earlier) == [];
    }
    result, grew := Append(result, [current], spare);
    assert View(result) == parts + [current];
    assert base[..] == before;
  }

  /** The k-th master tried is current + 1 + k, modulo the number of masters. */
  lemma RotationIsModular(n: nat, current: nat, k: nat)
    requires current < n && k < n
    ensures Rotation(n, current)[k] == (current + 1 + k) % n
  {
    if current + 1 + k >= n {
      WrapAround(current + 1 + k, n);
    }
  }

  lemma WrapAround(x: nat, n: nat)
    requires n <= x < 2 * n
    ensures x % n == x - n
  {
  }

  /** Every master is tried exactly once, the current one last. */
  lemma RotationIsPermutation(n: nat, current: nat, i: nat) returns (k: nat)
    requires i < n && current < n
    ensures k < n && Rotation(n, current)[k] == i
    ensures forall j :: 0 <= j < n && Rotation(n, current)[j] == i ==> j == k
    ensures Rotation(n, current)[n - 1] == current
  {
    k := if i > current then i - current - 1 else i + n - current - 1;
  }

  // One switch.

  datatype Health = Unreachable | PingFails | Healthy

  /** How far the first healthy master is down the order, or the length of the order. */
  function FirstHealthy(order: seq<nat>, health: seq<Health>): (k: nat)
    requires forall j :: 0 <= j < |order| ==> order[j] < |health|
    ensures k <= |order|
    ensures k < |order| ==> health[order[k]].Healthy?
    ensures forall j :: 0 <= j < k ==> !health[order[j]].Healthy?
  {
    if order == [] || health[order[0]].Healthy? then 0 else
    var rest := order[1..];
    var k := FirstHealthy(rest, health);
    assert forall j :: 0 < j <= k ==> rest[j - 1] == order[j];
    1 + k
  }

  /** A pool of connections to master `url`. */
  datatype Pool = Pool(id: nat, url: nat)

  class DatabaseClient {
    const masters: nat
    var active: Option<Pool>
    var currentIndex: nat
    /** Pools opened so far get the ids 0, 1, ...; `closed` lists them as they are closed. */
    var poolCount: nat
    var closed: seq<nat>

    ghost predicate Valid()
      reads this
    {
      && currentIndex < masters
      && (active.Some? ==>
            active.value.url == currentIndex && active.value.id < poolCount && active.value.id !in closed)
      && forall id :: id in closed ==> id < poolCount
    }

    constructor (masters: nat, first: nat)
      requires first < masters
      ensures Valid() && this.masters == masters && currentIndex == first
      ensures active == Some(Pool(0, first)) && closed == [] && poolCount == 1
    {
      this.masters := masters;
      active := Some(Pool(0, first));
      currentIndex := first;
      poolCount, closed := 1, [];
    }

    /** Nothing opened since there were `before` pools was lost: each is active or closed. */
    ghost predicate Accounted(before: nat)
      reads this
    {
      forall id: nat :: before <= id < poolCount ==> (active.Some? && active.value.id == id) || id in closed
    }

    /** The loop of `switchMaster`: open and ping pools in order until one is healthy, closing the
        others. `conn` is the healthy pool, held and not yet installed. */
    method TryMasters(order: seq<nat>, health: seq<Health>) returns (conn: Option<Pool>)
      requires Valid() && forall j :: 0 <= j < |order| ==> order[j] < |health|
      modifies this`poolCount, this`closed
      ensures Valid() && old(closed) <= closed && old(poolCount) <= poolCount
      ensures var k := FirstHealthy(order, health);
              if k == |order| then conn == None && Accounted(old(poolCount))
              else poolCount > old(poolCount) && conn == Some(Pool(poolCount - 1, order[k])) &&
                   conn.value.id !in closed &&
                   forall id: nat :: old(poolCount) <= id < poolCount - 1 ==> id in closed
    {
      var i := 0;
      while i < |order|
        invariant 0 <= i <= FirstHealthy(order, health) <= |order|
        invariant Valid() && old(closed) <= closed && old(poolCount) <= poolCount
        invariant forall id: nat :: old(poolCount) <= id < poolCount ==> id in closed
      {
        if !health[order[i]].Unreachable? {
          var pool := Pool(poolCount, order[i]);
          poolCount := poolCount + 1;
          if health[order[i]].Healthy? {
            return Some(pool);
          }
          closed := closed + [pool.id];
        }
        i := i + 1;
      }
      return None;
    }

    /** `switchMaster` alone, given the pool it loaded before taking its lock. It installs a pool to
        the first healthy master after the current one, closing every pool whose ping failed and the
        pool it replaces; with nothing to replace it reports failure all the same. */
    method SwitchMaster(loaded: Option<Pool>, health: seq<Health>) returns (ok: bool)
      requires Valid() && |health| == masters
      modifies this
      ensures Valid() && old(closed) <= closed && old(poolCount) <= poolCount && Accounted(old(poolCount))
      ensures loaded.Some? && loaded != old(active) ==> ok && unchanged(this)
      ensures !(loaded.Some? && loaded != old(active)) ==>
                var order := Rotation(masters, old(currentIndex));
                var k := FirstHealthy(order, health);
                if k == masters then !ok && currentIndex == old(currentIndex) && active == old(active)
                else currentIndex == order[k] && poolCount > old(poolCount) &&
                     active == Some(Pool(poolCount - 1, order[k])) &&
                     (ok <==> old(active).Some?) && (ok ==> old(active).value.id in closed)
    {
      if loaded.Some? && loaded != active {
        return true;
      }
      var order := CalculateConnectOrder(masters, currentIndex, 0);
      var conn := TryMasters(order, health);
      var oldMaster: Option<Pool> := None;
      if conn.Some? {
        oldMaster := active;
        active := conn;
        currentIndex := conn.value.url;
      }
      if oldMaster.Some? {
        closed := closed + [oldMaster.value.id];
        return true;
      }
      return false;
    }
  }

  /** `newDatabaseClient`: the first master that accepts a pool becomes the active one; without any,
      or without masters at all, there is no client. */
  method NewDatabaseClient(connects: seq<bool>) returns (client: DatabaseClient?)
    ensures client == null <==> true !in connects
    ensures client != null ==> fresh(client) && client.Valid() && client.masters == |connects|
    ensures client != null ==> connects[client.currentIndex]
    ensures client != null ==> forall i :: 0 <= i < client.currentIndex ==> !connects[i]
    ensures client != null ==> client.active == Some(Pool(0, client.currentIndex)) && client.closed == []
  {
    for i := 0 to |connects|
      invariant forall j :: 0 <= j < i ==> !connects[j]
    {
      if connects[i] {
        client := new DatabaseClient(|connects|, i);
        return;
      }
    }
    return null;
  }
}
