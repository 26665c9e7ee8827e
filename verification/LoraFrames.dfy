/** Splitting a LoRa frame into the CAN messages it carries (src/can/CANDriverUDP.cpp). A frame is a row of blocks, one
    for each configured node: an option byte and as many bytes as configured for the node. */
module LoraFrames {
  import opened Common
  import opened SensorCodec

  const EMPTY: Byte := 0
  const USED: Byte := 1
  const CAN_MSG_HEADER_SIZE := 1
  const UINT32 := 0x1_0000_0000

  datatype Block = Block(option: Byte, bytes: seq<Byte>)

  /** What the driver hands on: the node, the bytes of the message, and what else stands in the data area of the message
      buffer after them. */
  datatype Message = Message(node: int, bytes: seq<Byte>, stale: seq<Byte>)

  // ------------------------------------------------------------------- frames and blocks

  /** Where block i starts. */
  function Start(sizes: seq<nat>, i: nat): nat
    requires i <= |sizes|
  {
    if i == 0 then 0 else Start(sizes, i - 1) + CAN_MSG_HEADER_SIZE + sizes[i - 1]
  }

  lemma {:induction false} StartMonotone(sizes: seq<nat>, i: nat, j: nat)
    requires i <= j <= |sizes|
    ensures Start(sizes, i) <= Start(sizes, j)
    ensures i < j ==> Start(sizes, i) + CAN_MSG_HEADER_SIZE + sizes[i] <= Start(sizes, j)
  {
    if i < j {
      StartMonotone(sizes, i, j - 1);
    }
  }

  function BlockAt(sizes: seq<nat>, frame: seq<Byte>, i: nat): (block: Block)
    requires i < |sizes| && |frame| == Start(sizes, |sizes|)
    ensures |block.bytes| == sizes[i]
  {
    StartMonotone(sizes, i, |sizes|);
    var p := Start(sizes, i);
    Block(frame[p], frame[p + CAN_MSG_HEADER_SIZE..p + CAN_MSG_HEADER_SIZE + sizes[i]])
  }

  /** The first n blocks of a frame. */
  function Blocks(sizes: seq<nat>, frame: seq<Byte>, n: nat): (blocks: seq<Block>)
    requires n <= |sizes| && |frame| == Start(sizes, |sizes|)
    ensures |blocks| == n
  {
    if n == 0 then [] else Blocks(sizes, frame, n - 1) + [BlockAt(sizes, frame, n - 1)]
  }

  lemma {:induction false} BlocksHold(sizes: seq<nat>, frame: seq<Byte>, n: nat, i: nat)
    requires i < n <= |sizes| && |frame| == Start(sizes, |sizes|)
    ensures Blocks(sizes, frame, n)[i] == BlockAt(sizes, frame, i)
  {
    if i < n - 1 {
      BlocksHold(sizes, frame, n - 1, i);
    }
  }

  /** The frame made of the first n blocks. */
  function Frame(blocks: seq<Block>, n: nat): seq<Byte>
    requires n <= |blocks|
  {
    if n == 0 then [] else Frame(blocks, n - 1) + [blocks[n - 1].option] + blocks[n - 1].bytes
  }

  predicate Fits(sizes: seq<nat>, blocks: seq<Block>) {
    |blocks| == |sizes| && forall i | 0 <= i < |blocks| :: |blocks[i].bytes| == sizes[i]
  }

  lemma {:induction false} FrameLength(sizes: seq<nat>, blocks: seq<Block>, n: nat)
    requires Fits(sizes, blocks) && n <= |blocks|
    ensures |Frame(blocks, n)| == Start(sizes, n)
  {
    if n > 0 {
      FrameLength(sizes, blocks, n - 1);
    }
  }

  /** Block i stands at its start, whatever follows. */
  lemma {:induction false} FrameHolds(sizes: seq<nat>, blocks: seq<Block>, n: nat, i: nat)
    requires Fits(sizes, blocks) && i < n <= |blocks|
    ensures |Frame(blocks, n)| == Start(sizes, n)
    ensures Frame(blocks, i + 1) <= Frame(blocks, n)
  {
    FrameLength(sizes, blocks, n);
    if i < n - 1 {
      FrameHolds(sizes, blocks, n - 1, i);
    }
  }

  /** Every row of blocks of the configured sizes can be read off the frame made of it ... */
  lemma {:induction false} BlocksOfFrame(sizes: seq<nat>, blocks: seq<Block>, n: nat)
    requires Fits(sizes, blocks) && n <= |blocks|
    ensures |Frame(blocks, |blocks|)| == Start(sizes, |sizes|)
    ensures Blocks(sizes, Frame(blocks, |blocks|), n) == blocks[..n]
  {
    FrameLength(sizes, blocks, |blocks|);
    if n > 0 {
      BlocksOfFrame(sizes, blocks, n - 1);
      BlockOfFrame(sizes, blocks, n - 1);
    }
  }

  lemma BlockOfFrame(sizes: seq<nat>, blocks: seq<Block>, i: nat)
    requires Fits(sizes, blocks) && i < |blocks| && |Frame(blocks, |blocks|)| == Start(sizes, |sizes|)
    ensures BlockAt(sizes, Frame(blocks, |blocks|), i) == blocks[i]
  {
    FrameHolds(sizes, blocks, |blocks|, i);
    FrameLength(sizes, blocks, i);
    Middle(Frame(blocks, |blocks|), Frame(blocks, i), blocks[i].option, blocks[i].bytes);
  }

  lemma Middle(frame: seq<Byte>, before: seq<Byte>, option: Byte, bytes: seq<Byte>)
    requires before + [option] + bytes <= frame
    ensures var p := |before|;
            frame[p] == option && frame[p + 1..p + 1 + |bytes|] == bytes
  {
    var part := before + [option] + bytes;
    assert frame[..|part|] == part;
    assert part[|before| + 1..] == bytes;
  }

  lemma Parts(frame: seq<Byte>, p: nat, size: nat)
    requires p + 1 + size <= |frame|
    ensures frame[..p + 1 + size] == frame[..p] + [frame[p]] + frame[p + 1..p + 1 + size]
  {
  }

  /** ... and every frame of the required length is made of blocks. */
  lemma {:induction false} FrameOfBlocks(sizes: seq<nat>, frame: seq<Byte>, n: nat)
    requires |frame| == Start(sizes, |sizes|) && n <= |sizes|
    ensures Start(sizes, n) <= |frame|
    ensures Frame(Blocks(sizes, frame, n), n) == frame[..Start(sizes, n)]
  {
    StartMonotone(sizes, n, |sizes|);
    if n > 0 {
      FrameOfBlocks(sizes, frame, n - 1);
      var blocks, block := Blocks(sizes, frame, n - 1), BlockAt(sizes, frame, n - 1);
      var p, size := Start(sizes, n - 1), sizes[n - 1];
      assert Blocks(sizes, frame, n) == blocks + [block];
      FrameStep(blocks, block);
      Parts(frame, p, size);
      assert block.option == frame[p] && block.bytes == frame[p + 1..p + 1 + size] && Start(sizes, n) == p + 1 + size;
    }
  }

  lemma FrameStep(blocks: seq<Block>, block: Block)
    ensures Frame(blocks + [block], |blocks| + 1) == Frame(blocks, |blocks|) + [block.option] + block.bytes
  {
    FramePrefix(blocks, [block], |blocks|);
  }

  lemma {:induction false} FramePrefix(xs: seq<Block>, ys: seq<Block>, n: nat)
    requires n <= |xs|
    ensures Frame(xs + ys, n) == Frame(xs, n)
  {
    if n > 0 {
      FramePrefix(xs, ys, n - 1);
    }
  }

  // -------------------------------------------------------------------------- deliveries

  predicate Recognised(block: Block) {
    block.option == USED || block.option == EMPTY
  }

  /** What stays of the data area behind bytes copied to its front. */
  function Behind(bytes: seq<Byte>, area: seq<Byte>): seq<Byte> {
    if |bytes| <= |area| then area[|bytes|..] else []
  }

  /** What is left in the data area after the used ones of the first i blocks were copied over one another. */
  function Area(blocks: seq<Block>, blank: seq<Byte>, i: nat): seq<Byte>
    requires i <= |blocks|
  {
    if i == 0 then blank
    else
      var before, block := Area(blocks, blank, i - 1), blocks[i - 1];
      if block.option == USED then block.bytes + Behind(block.bytes, before) else before
  }

  /** Block i gets its turn: all before it are recognised, and no receiver refused one of them. */
  predicate Reached(blocks: seq<Block>, refused: nat -> bool, i: nat)
    requires i <= |blocks|
  {
    i == 0 || (Reached(blocks, refused, i - 1) && Recognised(blocks[i - 1])
               && !(blocks[i - 1].option == USED && refused(i - 1)))
  }

  /** What has been handed on after the first i blocks. */
  function Delivered(nodes: seq<int>, blocks: seq<Block>, blank: seq<Byte>, refused: nat -> bool, i: nat): seq<Message>
    requires i <= |blocks| <= |nodes|
  {
    if i == 0 then []
    else
      Delivered(nodes, blocks, blank, refused, i - 1) +
      if Reached(blocks, refused, i - 1)
          && blocks[i - 1].option == USED then [Handed(nodes, blocks, blank, i - 1)] else []
  }

  function Handed(nodes: seq<int>, blocks: seq<Block>, blank: seq<Byte>, i: nat): Message
    requires i < |blocks| <= |nodes|
  {
    Message(nodes[i], blocks[i].bytes, Behind(blocks[i].bytes, Area(blocks, blank, i)))
  }

  /** The used blocks from block i up to the first one that is not recognised, each with its node. */
  function UsedBlocks(nodes: seq<int>, blocks: seq<Block>, i: nat): seq<(int, seq<Byte>)>
    requires i <= |blocks| <= |nodes|
    decreases |blocks| - i
  {
    if i == |blocks| || !Recognised(blocks[i]) then []
    else Used(nodes, blocks, i) + UsedBlocks(nodes, blocks, i + 1)
  }

  function Used(nodes: seq<int>, blocks: seq<Block>, i: nat): seq<(int, seq<Byte>)>
    requires i < |blocks| <= |nodes|
  {
    if blocks[i].option == USED then [(nodes[i], blocks[i].bytes)] else []
  }

  /** The nodes and the bytes of messages. */
  function Contents(ms: seq<Message>): seq<(int, seq<Byte>)> {
    if ms == [] then []
    else Contents(ms[..|ms| - 1]) + [(ms[|ms| - 1].node, ms[|ms| - 1].bytes)]
  }

  lemma ContentsAppend(ms: seq<Message>, m: Message)
    ensures Contents(ms + [m]) == Contents(ms) + [(m.node, m.bytes)]
  {
    assert (ms + [m])[..|ms|] == ms;
  }

  /** Nothing after the block at which the row ends for the receiver. */
  lemma {:induction false} NothingFurther(nodes: seq<int>, blocks: seq<Block>, blank: seq<Byte>, refused: nat -> bool,
                                          i: nat, n: nat)
    requires i <= n <= |blocks| <= |nodes|
    requires !Reached(blocks, refused, i)
    ensures !Reached(blocks, refused, n)
    ensures Delivered(nodes, blocks, blank, refused, n) == Delivered(nodes, blocks, blank, refused, i)
  {
    if i < n {
      NothingFurther(nodes, blocks, blank, refused, i, n - 1);
    }
  }

  /** The turn of block i. */
  lemma Turn(nodes: seq<int>, blocks: seq<Block>, blank: seq<Byte>, refused: nat -> bool, i: nat)
    requires i < |blocks| <= |nodes|
    ensures var sofar := Delivered(nodes, blocks, blank, refused, i);
            Delivered(nodes, blocks, blank, refused, i + 1) ==
              if Reached(blocks, refused, i) && blocks[i].option == USED
              then sofar + [Handed(nodes, blocks, blank, i)]
              else sofar
    ensures Area(blocks, blank, i + 1) ==
              var area := Area(blocks, blank, i);
              if blocks[i].option == USED then blocks[i].bytes + Behind(blocks[i].bytes, area) else area
  {
  }

  /** What is delivered from block i on. */
  lemma {:induction false} DeliveredFrom(nodes: seq<int>, blocks: seq<Block>, blank: seq<Byte>, refused: nat -> bool,
        i: nat)
    requires i <= |blocks| <= |nodes|
    requires Reached(blocks, refused, i) && forall k: nat :: !refused(k)
    ensures Contents(Delivered(nodes, blocks, blank, refused, |blocks|)) ==
            Contents(Delivered(nodes, blocks, blank, refused, i)) + UsedBlocks(nodes, blocks, i)
    decreases |blocks| - i
  {
    if i == |blocks| || !Recognised(blocks[i]) {
      RowEnds(nodes, blocks, blank, refused, i);
      assert UsedBlocks(nodes, blocks, i) == [];
    } else {
      assert !refused(i);
      DeliveredFrom(nodes, blocks, blank, refused, i + 1);
      ContentsTurn(nodes, blocks, blank, refused, i);
      Associative(Contents(Delivered(nodes, blocks, blank, refused, i)), Used(nodes, blocks, i),
                  UsedBlocks(nodes, blocks, i + 1));
    }
  }

  lemma RowEnds(nodes: seq<int>, blocks: seq<Block>, blank: seq<Byte>, refused: nat -> bool, i: nat)
    requires i <= |blocks| <= |nodes|
    requires i == |blocks| || !Recognised(blocks[i])
    ensures Delivered(nodes, blocks, blank, refused, |blocks|) == Delivered(nodes, blocks, blank, refused, i)
  {
    if i < |blocks| {
      NothingFurther(nodes, blocks, blank, refused, i + 1, |blocks|);
      Turn(nodes, blocks, blank, refused, i);
    }
  }

  lemma ContentsTurn(nodes: seq<int>, blocks: seq<Block>, blank: seq<Byte>, refused: nat -> bool, i: nat)
    requires i < |blocks| <= |nodes| && Reached(blocks, refused, i)
    ensures Contents(Delivered(nodes, blocks, blank, refused, i + 1)) ==
            Contents(Delivered(nodes, blocks, blank, refused, i)) + Used(nodes, blocks, i)
  {
    Turn(nodes, blocks, blank, refused, i);
    ContentsAppend(Delivered(nodes, blocks, blank, refused, i), Handed(nodes, blocks, blank, i));
  }

  /** When no receiver refuses a message, what is delivered are exactly the used blocks before the first block that is
      not recognised, in order, each with the bytes and the node of its block. */
  lemma DeliveredAreUsed(nodes: seq<int>, blocks: seq<Block>, blank: seq<Byte>, refused: nat -> bool)
    requires |blocks| <= |nodes| && forall k: nat :: !refused(k)
    ensures Contents(Delivered(nodes, blocks, blank, refused, |blocks|)) == UsedBlocks(nodes, blocks, 0)
  {
    DeliveredFrom(nodes, blocks, blank, refused, 0);
  }

  // ------------------------------------------------------- blocks that are not recognised

  /** All used blocks from block i on: only the blocks that are not recognised are left out. */
  function AllUsed(nodes: seq<int>, blocks: seq<Block>, i: nat): seq<(int, seq<Byte>)>
    requires i <= |blocks| <= |nodes|
    decreases |blocks| - i
  {
    if i == |blocks| then [] else Used(nodes, blocks, i) + AllUsed(nodes, blocks, i + 1)
  }

  /** Every block with a used one behind it, from block i on, is recognised. */
  ghost predicate NoneHidden(blocks: seq<Block>, i: nat) {
    forall j, k | i <= j < k < |blocks| && blocks[k].option == USED :: Recognised(blocks[j])
  }

  predicate NoneUsed(blocks: seq<Block>, i: nat) {
    forall k | i <= k < |blocks| :: blocks[k].option != USED
  }

  lemma {:induction false} NoneUsedIff(nodes: seq<int>, blocks: seq<Block>, i: nat)
    requires i <= |blocks| <= |nodes|
    ensures AllUsed(nodes, blocks, i) == [] <==> NoneUsed(blocks, i)
    decreases |blocks| - i
  {
    if i < |blocks| {
      NoneUsedIff(nodes, blocks, i + 1);
      assert |AllUsed(nodes, blocks, i)| == |Used(nodes, blocks, i)| + |AllUsed(nodes, blocks, i + 1)|;
      assert NoneUsed(blocks, i) <==> blocks[i].option != USED && NoneUsed(blocks, i + 1);
    }
  }

  lemma NoneHiddenStep(blocks: seq<Block>, i: nat)
    requires i < |blocks|
    ensures NoneHidden(blocks, i) <==> NoneHidden(blocks, i + 1) && (Recognised(blocks[i]) || NoneUsed(blocks, i + 1))
  {
  }

  lemma {:induction false} SkipsOneFrom(nodes: seq<int>, blocks: seq<Block>, i: nat)
    requires i <= |blocks| <= |nodes|
    ensures UsedBlocks(nodes, blocks, i) == AllUsed(nodes, blocks, i) <==> NoneHidden(blocks, i)
    decreases |blocks| - i
  {
    if i < |blocks| {
      NoneHiddenStep(blocks, i);
      if Recognised(blocks[i]) {
        SkipsOneFrom(nodes, blocks, i + 1);
        SamePrefix(Used(nodes, blocks, i), UsedBlocks(nodes, blocks, i + 1), AllUsed(nodes, blocks, i + 1));
      } else {
        NoneUsedIff(nodes, blocks, i + 1);
        assert Used(nodes, blocks, i) == [];
        assert NoneUsed(blocks, i + 1) ==> NoneHidden(blocks, i + 1);
      }
    }
  }

  lemma SamePrefix<T>(before: seq<T>, xs: seq<T>, ys: seq<T>)
    ensures before + xs == before + ys <==> xs == ys
  {
    assert (before + xs)[|before|..] == xs && (before + ys)[|before|..] == ys;
  }

  /** A block that is not recognised costs the frame only itself exactly when no used block stands behind it. */
  lemma SkipsOneIff(nodes: seq<int>, blocks: seq<Block>, blank: seq<Byte>, refused: nat -> bool)
    requires |blocks| <= |nodes| && forall k: nat :: !refused(k)
    ensures Contents(Delivered(nodes, blocks, blank, refused, |blocks|)) == AllUsed(nodes, blocks, 0)
        <==> forall j, k | 0 <= j < k < |blocks| && blocks[k].option == USED :: Recognised(blocks[j])
  {
    DeliveredAreUsed(nodes, blocks, blank, refused);
    SkipsOneFrom(nodes, blocks, 0);
  }

  /** Two blocks suffice to lose a message: the used second one is not delivered. */
  lemma UnrecognisedHidesNext(nodes: seq<int>, first: Block, bytes: seq<Byte>, blank: seq<Byte>, refused: nat -> bool)
    requires |nodes| == 2 && !Recognised(first)
    ensures var blocks := [first, Block(USED, bytes)];
            && Delivered(nodes, blocks, blank, refused, 2) == []
            && AllUsed(nodes, blocks, 0) == [(nodes[1], bytes)]
  {
    var blocks := [first, Block(USED, bytes)];
    assert !Reached(blocks, refused, 1);
    NothingFurther(nodes, blocks, blank, refused, 1, 2);
    Turn(nodes, blocks, blank, refused, 0);
    assert AllUsed(nodes, blocks, 2) == [];
    assert AllUsed(nodes, blocks, 1) == Used(nodes, blocks, 1);
  }

  /** Option 1 marks a used block and 0 an empty one; each takes one byte before its bytes. */
  lemma FrameOfOne(node: int, option: Byte, bytes: seq<Byte>, blank: seq<Byte>, refused: nat -> bool)
    ensures var blocks := [Block(option, bytes)];
            && Frame(blocks, 1) == [option] + bytes && Start([|bytes|], 1) == 1 + |bytes|
            && Blocks([|bytes|], [option] + bytes, 1) == blocks
            && Contents(Delivered([node], blocks, blank, refused, 1)) == (if option == 1 then [(node, bytes)] else [])
            && (Recognised(blocks[0]) <==> option == 0 || option == 1)
  {
    var blocks := [Block(option, bytes)];
    assert Frame(blocks, 0) == [] && Start([|bytes|], 0) == 0;
    assert Fits([|bytes|], blocks);
    BlocksOfFrame([|bytes|], blocks, 1);
    assert blocks[..1] == blocks;
    Turn([node], blocks, blank, refused, 0);
    ContentsAppend([], Handed([node], blocks, blank, 0));
  }

  // -------------------------------------------------------------------------- the driver

  /** The blocks that are copied fit the data area. */
  ghost predicate CopiesFit(blocks: seq<Block>, blank: seq<Byte>, refused: nat -> bool) {
    forall i | 0 <= i < |blocks| && blocks[i].option == USED && Reached(blocks, refused, i) ::
      |blocks[i].bytes| <= |blank|
  }

  /** The required length as accumulated in 32 bits. */
  function Required(sizes: seq<nat>, n: nat): nat
    requires n <= |sizes|
  {
    if n == 0 then 0 else (Required(sizes, n - 1) + CAN_MSG_HEADER_SIZE + sizes[n - 1]) % UINT32
  }

  /** It is the length of the blocks together exactly when that fits 32 bits. */
  lemma {:induction false} RequiredIsExactIff(sizes: seq<nat>, n: nat)
    requires n <= |sizes|
    ensures Required(sizes, n) == Start(sizes, n) % 4294967296
    ensures Required(sizes, n) == Start(sizes, n) <==> Start(sizes, n) < 4294967296
  {
    if n > 0 {
      RequiredIsExactIff(sizes, n - 1);
      ModAdd(Start(sizes, n - 1), CAN_MSG_HEADER_SIZE + sizes[n - 1]);
    }
  }

  lemma ModAdd(a: nat, b: nat)
    ensures (a % UINT32 + b) % UINT32 == (a + b) % UINT32
  {
  }

  class CANDriverUDP {
    const nodeIDs: seq<int>
    const canMsgSizes: seq<nat>
    const totalRequiredMsgPayloadSize: nat
    /** The data area of an empty message buffer. */
    const blank: seq<Byte>

    constructor (nodeIDs: seq<int>, canMsgSizes: seq<nat>, total: nat, blank: seq<Byte>)
      ensures this.nodeIDs == nodeIDs && this.canMsgSizes == canMsgSizes && totalRequiredMsgPayloadSize == total
      ensures this.blank == blank
    {
      this.nodeIDs, this.canMsgSizes, totalRequiredMsgPayloadSize := nodeIDs, canMsgSizes, total;
      this.blank := blank;
    }

    /** Required frames are as long as the blocks together. */
    ghost predicate Valid() {
      && |nodeIDs| == |canMsgSizes|
      && totalRequiredMsgPayloadSize == Start(canMsgSizes, |canMsgSizes|)
    }

    /** The blocks of a frame of the required length. */
    function Split(frame: seq<Byte>): seq<Block>
      requires |frame| == Start(canMsgSizes, |canMsgSizes|)
    {
      Blocks(canMsgSizes, frame, |canMsgSizes|)
    }

    /** One frame: ignored unless it has the required length; else block by block. A block that is not recognised does
        not move the payload pointer, so the blocks after it are not looked at. A receiver may refuse a message by an
        exception, which ends the frame. */
    method AsyncListen(frame: seq<Byte>, refused: nat -> bool) returns (received: seq<Message>)
      requires Valid()
      requires |frame| == Start(canMsgSizes, |canMsgSizes|) ==> CopiesFit(Split(frame), blank, refused)
      ensures received ==
        if |frame| == 0 || |frame| != Start(canMsgSizes, |canMsgSizes|) then []
        else Delivered(nodeIDs, Split(frame), blank, refused, |canMsgSizes|)
    {
      received := [];
      if |frame| <= 0 || |frame| != totalRequiredMsgPayloadSize {
        return;
      }
      ghost var blocks := Split(frame);
      ghost var stop := 0;
      var payload, command := 0, blank;
      for i := 0 to |nodeIDs|
        invariant stop <= i && payload == Start(canMsgSizes, stop)
        invariant if stop < i then !Recognised(blocks[stop]) && !Reached(blocks, refused, i)
                  else Reached(blocks, refused, i)
        invariant command == Area(blocks, blank, stop) && |command| == |blank|
        invariant received == Delivered(nodeIDs, blocks, blank, refused, i)
      {
        Turn(nodeIDs, blocks, blank, refused, i);
        var option := ReadOption(frame, blocks, payload, stop);
        assert stop < i ==> option != USED && option != EMPTY;
        if option == USED {
          var bytes := ReadBytes(frame, blocks, payload, i);
          var rest := command[|bytes|..];
          command := bytes + rest;
          assert command == Area(blocks, blank, i + 1);
          assert Handed(nodeIDs, blocks, blank, i) == Message(nodeIDs[i], bytes, rest);
          received := received + [Message(nodeIDs[i], bytes, rest)];
          if refused(i) {
            NothingFurther(nodeIDs, blocks, blank, refused, i + 1, |blocks|);
            return;
          }
        } else if option != EMPTY {
          continue;
        }
        payload := payload + CAN_MSG_HEADER_SIZE + canMsgSizes[i];
        stop := stop + 1;
      }
    }

    /** Reading the option byte of a block stays inside the frame ... */
    method ReadOption(frame: seq<Byte>, ghost blocks: seq<Block>, payload: nat, ghost i: nat) returns (option: Byte)
      requires |frame| == Start(canMsgSizes, |canMsgSizes|) && blocks == Blocks(canMsgSizes, frame, |canMsgSizes|)
      requires i < |canMsgSizes| && payload == Start(canMsgSizes, i)
      ensures option == blocks[i].option
    {
      StartMonotone(canMsgSizes, i, |canMsgSizes|);
      BlocksHold(canMsgSizes, frame, |canMsgSizes|, i);
      return frame[payload];
    }

    /** ... and so does copying its bytes. */
    method ReadBytes(frame: seq<Byte>, ghost blocks: seq<Block>, payload: nat, i: nat) returns (bytes: seq<Byte>)
      requires |frame| == Start(canMsgSizes, |canMsgSizes|) && blocks == Blocks(canMsgSizes, frame, |canMsgSizes|)
      requires i < |canMsgSizes| && payload == Start(canMsgSizes, i)
      ensures bytes == blocks[i].bytes
    {
      StartMonotone(canMsgSizes, i, |canMsgSizes|);
      BlocksHold(canMsgSizes, frame, |canMsgSizes|, i);
      return frame[payload + CAN_MSG_HEADER_SIZE..payload + CAN_MSG_HEADER_SIZE + canMsgSizes[i]];
    }
  }

  /** The driver for a configuration: one positive size for each node. */
  method Configure(nodeIDs: seq<int>, canMsgSizes: seq<int>, blank: seq<Byte>) returns (driver: Result<CANDriverUDP>)
    ensures driver.Ok? <==> |nodeIDs| == |canMsgSizes| && forall i | 0 <= i < |canMsgSizes| :: canMsgSizes[i] > 0
    ensures driver.Ok? ==>
              && driver.value.nodeIDs == nodeIDs && driver.value.canMsgSizes == canMsgSizes
              && driver.value.blank == blank
              && driver.value.totalRequiredMsgPayloadSize == Required(driver.value.canMsgSizes, |canMsgSizes|)
              && (driver.value.Valid() <==> Start(driver.value.canMsgSizes, |canMsgSizes|) < 4294967296)
  {
    var sizes: seq<nat> := [];
    var total := 0;
    for i := 0 to |canMsgSizes|
      invariant forall k | 0 <= k < i :: canMsgSizes[k] > 0
      invariant sizes == canMsgSizes[..i] && total == Required(sizes, i)
    {
      if canMsgSizes[i] <= 0 {
        return Throws;
      }
      RequiredPrefix(sizes, [canMsgSizes[i]], i);
      total := (total + CAN_MSG_HEADER_SIZE + canMsgSizes[i]) % UINT32;
      sizes := sizes + [canMsgSizes[i]];
    }
    if |nodeIDs| != |canMsgSizes| {
      return Throws;
    }
    RequiredIsExactIff(sizes, |sizes|);
    var accepted := new CANDriverUDP(nodeIDs, sizes, total, blank);
    return Ok(accepted);
  }

  lemma {:induction false} RequiredPrefix(xs: seq<nat>, ys: seq<nat>, n: nat)
    requires n <= |xs|
    ensures Required(xs + ys, n) == Required(xs, n)
  {
    if n > 0 {
      RequiredPrefix(xs, ys, n - 1);
    }
  }
}
