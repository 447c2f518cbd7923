// The event queue of ezgrpc2: a list of blocks of 64 events, filled at the back and handed out
// whole from the front. It behaves as a first-in first-out queue of single events.

module EventQueue {
  import opened Basics
  import opened LinkedList

  const BLOCK: nat := 64

  // The events of full blocks, in order.
  ghost function Full<E>(blocks: seq<array<E>>): seq<E>
    reads blocks
  {
    if blocks == [] then [] else blocks[0][..] + Full(blocks[1..])
  }

  // The events of all blocks when the last one is filled up to windex.
  ghost function Events<E>(blocks: seq<array<E>>, windex: nat): seq<E>
    requires blocks != [] ==> windex <= blocks[|blocks| - 1].Length
    reads blocks
  {
    if blocks == [] then []
    else if |blocks| == 1 then blocks[0][..windex]
    else blocks[0][..] + Events(blocks[1..], windex)
  }

  lemma {:induction false} EventsSplit<E>(blocks: seq<array<E>>, windex: nat)
    requires blocks != [] && windex <= blocks[|blocks| - 1].Length
    ensures Events(blocks, windex) == Full(blocks[..|blocks| - 1]) + blocks[|blocks| - 1][..windex]
  {
    if |blocks| > 1 {
      EventsSplit(blocks[1..], windex);
      assert blocks[1..][..|blocks| - 2] == blocks[..|blocks| - 1][1..];
    }
  }

  // A block that has been filled counts in whole.
  lemma {:induction false} FullSnoc<E>(blocks: seq<array<E>>, last: array<E>)
    ensures Full(blocks + [last]) == Full(blocks) + last[..]
  {
    if blocks == [] {
      assert blocks + [last] == [last];
    } else {
      FullSnoc(blocks[1..], last);
      assert (blocks + [last])[1..] == blocks[1..] + [last];
    }
  }

  lemma NoBlocks<E>(windex: nat)
    ensures Full<E>([]) == [] && Events<E>([], windex) == []
  {
  }

  // A new block adds nothing as long as it is empty.
  lemma NewBlock<E>(blocks: seq<array<E>>, block: array<E>)
    requires forall i | 0 <= i < |blocks| :: blocks[i].Length == BLOCK
    ensures Events(blocks + [block], 0) == Events(blocks, BLOCK)
  {
    hide Events, Full;
    EventsSplit(blocks + [block], 0);
    assert (blocks + [block])[..|blocks|] == blocks;
    if blocks == [] {
      NoBlocks<E>(BLOCK);
    } else {
      FilledBlock(blocks);
    }
  }

  lemma FilledBlock<E>(blocks: seq<array<E>>)
    requires blocks != [] && blocks[|blocks| - 1].Length == BLOCK
    ensures Events(blocks, BLOCK) == Full(blocks)
  {
    hide Events, Full;
    var n := |blocks|;
    EventsSplit(blocks, BLOCK);
    FullSnoc(blocks[..n - 1], blocks[n - 1]);
    assert blocks[..n - 1] + [blocks[n - 1]] == blocks;
  }

  // `written` and `handedOut` are history: every event ever written, and every event in the arrays
  // returned by reads so far.
  class EventQueue<E(==, 0)> {
    const blocks: List<array<E>>
    var windex: nat
    ghost var written: seq<E>
    ghost var handedOut: seq<E>

    ghost function Blocks(): seq<array<E>>
      reads blocks
    {
      blocks.Contents()
    }

    ghost predicate Shaped()
      reads this, blocks, blocks.nodes
    {
      && blocks.Valid()
      && Distinct(Blocks())
      && (forall i | 0 <= i < |Blocks()| :: Blocks()[i].Length == BLOCK)
      && windex <= BLOCK && (Blocks() == [] ==> windex == BLOCK)
    }

    ghost predicate Valid()
      reads this, blocks, blocks.nodes, Blocks()
    {
      && Shaped() && windex > 0
      && written == handedOut + Events(Blocks(), windex)
    }

    constructor ()
      ensures Valid() && written == [] && handedOut == [] && fresh(blocks)
    {
      blocks := new List<array<E>>();
      windex := BLOCK;
      written, handedOut := [], [];
    }

    // Returns 1, with nothing changed, when a new block is needed and cannot be had.
    method Write(event: E, allocOk: bool) returns (code: int)
      requires Valid()
      modifies this, blocks, blocks.all, Blocks()
      ensures Valid() && handedOut == old(handedOut)
      ensures code == if old(windex) == BLOCK && !allocOk then 1 else 0
      ensures written == if code == 0 then old(written) + [event] else old(written)
      ensures forall b | b in Blocks() :: b in old(Blocks()) || fresh(b)
      ensures blocks.all >= old(blocks.all) && fresh(blocks.all - old(blocks.all))
    {
      hide Events, DataOf;
      if windex == BLOCK {
        if !allocOk {
          return 1;
        }
        AddBlock();
      }
      Put(event);
      written := written + [event];
      code := 0;
    }

    method AddBlock()
      requires Shaped() && windex == BLOCK
      modifies this`windex, blocks, blocks.all
      ensures Shaped() && windex == 0
      ensures Events(Blocks(), 0) == old(Events(Blocks(), windex))
      ensures Blocks() != [] && Blocks()[..|Blocks()| - 1] == old(Blocks()) && fresh(Blocks()[|Blocks()| - 1])
      ensures blocks.all >= old(blocks.all) && fresh(blocks.all - old(blocks.all))
    {
      ghost var before := Blocks();
      var block := new E[BLOCK];
      assert block !in before;
      NewBlock(before, block);
      assert Events(before + [block], 0) == old(Events(Blocks(), windex));
      Append(block);
    }

    method Append(block: array<E>)
      requires blocks.Valid() && block !in Blocks()
      modifies this`windex, blocks, blocks.all
      ensures blocks.Valid() && windex == 0 && Blocks() == old(Blocks()) + [block]
      ensures blocks.all >= old(blocks.all) && fresh(blocks.all - old(blocks.all))
    {
      blocks.PushBack(block);
      windex := 0;
    }

    method Put(event: E)
      requires Shaped() && windex < BLOCK
      modifies this`windex, Blocks()
      ensures Shaped() && windex == old(windex) + 1
      ensures Blocks() == old(Blocks())
      ensures Events(Blocks(), windex) == old(Events(Blocks(), windex)) + [event]
    {
      var last := blocks.PeekBack();
      ghost var b, w := Blocks(), windex;
      ghost var filled := b[..|b| - 1];
      EventsSplit(b, w);
      assert last.value !in filled;
      last.value[windex] := event;
      assert Full(filled) == old(Full(filled));
      assert last.value[..w + 1] == old(last.value[..w]) + [event];
      windex := windex + 1;
      EventsSplit(b, windex);
    }

    // Hands out the first block with the number of events in it.
    method Read() returns (block: array?<E>, len: nat)
      requires Valid()
      modifies this, blocks, blocks.all
      ensures Valid() && written == old(written)
      ensures block == null <==> old(Blocks()) == []
      ensures block == null <==> old(handedOut) == written
      ensures block == null ==> handedOut == old(handedOut)
      ensures block != null ==>
                && 0 < len <= block.Length && (Blocks() != [] ==> len == BLOCK)
                && handedOut == old(handedOut) + block[..len]
                && old(Blocks()) == [block] + Blocks()
      ensures blocks.all == old(blocks.all)
    {
      ghost var b, w := Blocks(), windex;
      var first := blocks.PopFront();
      if first.None? {
        return null, 0;
      }
      block := first.value;
      if blocks.count == 0 {
        len := windex;
        windex := BLOCK;
      } else {
        len := BLOCK;
      }
      assert b == [block] + Blocks();
      handedOut := handedOut + block[..len];
    }
  }
}
