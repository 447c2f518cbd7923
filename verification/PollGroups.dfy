// The poll-group allocator of wepoll: sockets share device handles in groups of at most 32.
// Groups sit in a queue; a full group goes to the front and a group that loses a member goes to
// the back, so the last group tells whether there is room anywhere.

module PollGroups {
  import opened Basics

  const MAX_GROUP_SIZE: nat := 32

  // ---- The allocator on the sizes alone, in queue order ----

  ghost predicate Orderly(z: seq<nat>) {
    && (forall i | 0 <= i < |z| :: z[i] <= MAX_GROUP_SIZE)
    && (forall i, j | 0 <= i < j < |z| :: z[j] == MAX_GROUP_SIZE ==> z[i] == MAX_GROUP_SIZE)
  }

  ghost function Total(z: seq<nat>): nat {
    if z == [] then 0 else Total(z[..|z| - 1]) + z[|z| - 1]
  }

  ghost function Acquired(z: seq<nat>): seq<nat> {
    var k := if z == [] || z[|z| - 1] >= MAX_GROUP_SIZE then |z| else |z| - 1;
    var size := (if k == |z| then 0 else z[k]) + 1;
    if size == MAX_GROUP_SIZE then [size] + z[..k] else z[..k] + [size]
  }

  ghost function Released(z: seq<nat>, k: nat): seq<nat>
    requires k < |z| && z[k] > 0
  {
    z[..k] + z[k + 1..] + [z[k] - 1]
  }

  // How many groups of 32 it takes to hold n slots.
  function GroupsFor(n: nat): (g: nat)
    ensures n <= 32 * g < n + 32
  {
    (n + MAX_GROUP_SIZE - 1) / MAX_GROUP_SIZE
  }

  function Max(a: nat, b: nat): nat {
    if a < b then b else a
  }

  // The number of groups is exactly what the largest number of slots ever held requires.
  ghost predicate Tight(z: seq<nat>, peak: nat) {
    Orderly(z) && Total(z) <= peak && |z| == GroupsFor(peak)
  }

  lemma {:induction false} TotalConcat(a: seq<nat>, b: seq<nat>)
    ensures Total(a + b) == Total(a) + Total(b)
  {
    if b == [] {
      assert a + b == a;
    } else {
      assert (a + b)[..|a + b| - 1] == a + b[..|b| - 1];
      TotalConcat(a, b[..|b| - 1]);
    }
  }

  lemma {:induction false} TotalBounds(z: seq<nat>)
    requires Orderly(z)
    ensures Total(z) <= MAX_GROUP_SIZE * |z|
    ensures z != [] && z[|z| - 1] == MAX_GROUP_SIZE ==> Total(z) == MAX_GROUP_SIZE * |z|
  {
    if z != [] {
      TotalBounds(z[..|z| - 1]);
    }
  }

  lemma TotalOne(n: nat)
    ensures Total([n]) == n
  {
    assert [n][..0] == [];
  }

  lemma AcquireTotal(z: seq<nat>)
    ensures Total(Acquired(z)) == Total(z) + 1
  {
    hide Total;
    var k := if z == [] || z[|z| - 1] >= MAX_GROUP_SIZE then |z| else |z| - 1;
    var size := (if k == |z| then 0 else z[k]) + 1;
    TotalConcat([size], z[..k]);
    TotalConcat(z[..k], [size]);
    TotalOne(size);
    if k == |z| {
      assert z[..k] == z;
    } else {
      TotalConcat(z[..k], [z[k]]);
      TotalOne(z[k]);
      assert z == z[..k] + [z[k]];
    }
  }

  lemma AcquireOrderly(z: seq<nat>)
    requires Orderly(z)
    ensures Orderly(Acquired(z))
    ensures |Acquired(z)| == |z| + if z == [] || z[|z| - 1] >= MAX_GROUP_SIZE then 1 else 0
  {
  }

  // A new group is made only when every existing one is full.
  lemma AcquireKeepsTight(z: seq<nat>, peak: nat)
    requires Tight(z, peak)
    ensures Total(Acquired(z)) == Total(z) + 1
    ensures Tight(Acquired(z), Max(peak, Total(z) + 1))
    ensures |Acquired(z)| > |z| <==> forall i | 0 <= i < |z| :: z[i] == MAX_GROUP_SIZE
  {
    hide Total;
    AcquireTotal(z);
    AcquireOrderly(z);
    TotalBounds(z);
    TotalBounds(Acquired(z));
  }

  lemma ReleaseTotal(z: seq<nat>, k: nat)
    requires k < |z| && z[k] > 0
    ensures Total(Released(z, k)) == Total(z) - 1
  {
    hide Total;
    var before, after := z[..k], z[k + 1..];
    TotalConcat(before + after, [z[k] - 1]);
    TotalConcat(before, after);
    TotalConcat(before + [z[k]], after);
    TotalConcat(before, [z[k]]);
    assert z == before + [z[k]] + after;
    TotalOne(z[k]);
    TotalOne(z[k] - 1);
  }

  lemma ReleaseOrderly(z: seq<nat>, k: nat)
    requires Orderly(z) && k < |z| && z[k] > 0
    ensures Orderly(Released(z, k))
  {
    var z' := Released(z, k);
    forall i | 0 <= i < |z'|
      ensures z'[i] == if i < k then z[i] else if i < |z| - 1 then z[i + 1] else z[k] - 1
    {
    }
  }

  lemma ReleaseKeepsTight(z: seq<nat>, k: nat, peak: nat)
    requires Tight(z, peak) && k < |z| && z[k] > 0
    ensures Tight(Released(z, k), peak)
  {
    ReleaseOrderly(z, k);
    ReleaseTotal(z, k);
  }

  // ---- The allocator as the port uses it ----

  class PollGroup {
    var size: nat

    constructor ()
      ensures size == 0
    {
      size := 0;
    }
  }

  function Without<T(==)>(q: seq<T>, x: T): seq<T> {
    if q == [] then [] else if q[0] == x then q[1..] else [q[0]] + Without(q[1..], x)
  }

  lemma {:induction false} WithoutAt<T>(q: seq<T>, k: nat)
    requires Distinct(q) && k < |q|
    ensures Without(q, q[k]) == q[..k] + q[k + 1..]
  {
    if k > 0 {
      WithoutAt(q[1..], k - 1);
      assert q[0] != q[k];
      assert q[..k] == [q[0]] + q[1..][..k - 1];
    }
  }

  function MoveToEnd<T(==)>(q: seq<T>, x: T, ghost k: nat): (r: seq<T>)
    requires Distinct(q) && k < |q| && q[k] == x
    ensures r == q[..k] + q[k + 1..] + [x]
  {
    WithoutAt(q, k);
    Without(q, x) + [x]
  }

  class GroupQueue {
    var queue: seq<PollGroup>
    ghost var sizes: seq<nat>
    ghost var peak: nat
    ghost var repr: set<PollGroup>

    constructor ()
      ensures Valid() && queue == [] && sizes == [] && peak == 0 && repr == {}
    {
      queue, sizes, peak, repr := [], [], 0, {};
    }

    ghost predicate SizesMatch()
      reads this, queue
    {
      && |sizes| == |queue|
      && forall i | 0 <= i < |queue| :: queue[i].size == sizes[i]
    }

    ghost predicate Valid()
      reads this, queue
    {
      && Distinct(queue) && SizesMatch() && Tight(sizes, peak)
      && (forall g | g in queue :: g in repr) && (forall g | g in repr :: g in queue)
    }

    // Whether the next member needs a new group.
    predicate Exhausted()
      reads this, queue
    {
      queue == [] || queue[|queue| - 1].size >= MAX_GROUP_SIZE
    }

    // Returns null, with nothing changed, when a new device handle is needed and cannot be had.
    method Acquire(deviceAvailable: bool) returns (group: PollGroup?)
      requires Valid()
      modifies this, repr
      ensures Valid()
      ensures group == null <==> old(Exhausted()) && !deviceAvailable
      ensures group == null ==> unchanged(this) && unchanged(old(repr))
      ensures group != null ==> sizes == Acquired(old(sizes)) && peak == Max(old(peak), Total(old(sizes)) + 1)
      ensures group != null ==> repr == old(repr) + {group} && (group in old(repr) || fresh(group))
      ensures group != null ==> (group in old(repr) <==> !old(Exhausted()))
      ensures group != null ==> group.size == 1 + if group in old(repr) then old(group.size) else 0
      ensures forall g | g in old(repr) && g != group :: g.size == old(g.size)
    {
      hide Total, Acquired, GroupsFor;
      AcquireKeepsTight(sizes, peak);
      if Exhausted() {
        if !deviceAvailable {
          return null;
        }
        group := new PollGroup();
        queue, repr := queue + [group], repr + {group};
      } else {
        group := queue[|queue| - 1];
      }
      peak := Max(peak, Total(sizes) + 1);
      AddMember(group);
    }

    // The last group gains a member and goes to the front if that fills it.
    method AddMember(group: PollGroup)
      requires Distinct(queue) && queue != [] && group == queue[|queue| - 1]
      requires |sizes| == |queue| - 1 ==> group.size == 0 && (sizes == [] || sizes[|sizes| - 1] >= MAX_GROUP_SIZE)
      requires |sizes| == |queue| ==> group.size < MAX_GROUP_SIZE && sizes[|sizes| - 1] == group.size
      requires |queue| - 1 <= |sizes| <= |queue|
      requires forall i | 0 <= i < |queue| - 1 :: queue[i].size == sizes[i]
      modifies this`queue, this`sizes, group
      ensures Distinct(queue) && group.size == old(group.size) + 1
      ensures (forall g | g in queue :: g in old(queue)) && (forall g | g in old(queue) :: g in queue)
      ensures sizes == Acquired(old(sizes)) && SizesMatch()
    {
      var rest := queue[..|queue| - 1];
      assert queue == rest + [group];
      sizes := Acquired(sizes);
      group.size := group.size + 1;
      if group.size == MAX_GROUP_SIZE {
        queue := [group] + rest;
      }
    }

    method Release(group: PollGroup) returns (ghost k: nat)
      requires Valid() && group in queue && group.size > 0
      modifies this`queue, this`sizes, group
      ensures Valid()
      ensures group.size == old(group.size) - 1
      ensures k < |old(sizes)| && old(queue[k]) == group && sizes == Released(old(sizes), k)
    {
      hide Total, Without, GroupsFor;
      k :| 0 <= k < |queue| && queue[k] == group;
      ReleaseKeepsTight(sizes, k, peak);
      sizes := Released(sizes, k);
      group.size := group.size - 1;
      assert group.size < MAX_GROUP_SIZE;
      queue := MoveToEnd(queue, group, k);
    }
  }
}
