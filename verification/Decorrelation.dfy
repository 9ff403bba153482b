/** Undoing stereo decorrelation in place, with the side channel lying in the block or beside it. */
module Decorrelation {
  import opened Machine

  datatype Mode = LeftSide | RightSide | MidSide

  datatype Pair = Pair(left: int, right: int)

  /** The stereo sample that a stored channel and a side sample stand for. */
  function Decode(mode: Mode, stored: int, side: int): Pair {
    match mode
    case LeftSide => Pair(stored, Wrap32(stored - side))
    case RightSide => Pair(Wrap32(side + stored), stored)
    case MidSide =>
      var right := Wrap32(stored - side / 2);
      Pair(Wrap32(right + side), right)
  }

  /** What an encoder stores beside the exact difference of the channels. */
  function Stored(mode: Mode, p: Pair): int {
    match mode
    case LeftSide => p.left
    case RightSide => p.right
    case MidSide => (p.left + p.right) / 2
  }

  /** Where the stored channel starts in a block of two channels of n samples. */
  function StoredAt(mode: Mode, n: nat): nat {
    if mode == RightSide then n else 0
  }

  /** Where the side channel starts when it lies in the block itself. */
  function SideAt(mode: Mode, n: nat): nat {
    if mode == RightSide then 0 else n
  }

  /** The block after its first i samples have been decoded; `block` and `side` are what the loop found. */
  ghost predicate Progress(mode: Mode, block: seq<int>, side: seq<int>, now: seq<int>, n: nat, i: nat)
    requires i <= n == |side| && 2 * n <= |block|
  {
    && |now| == |block|
    && (forall k | 0 <= k < i :: Pair(now[k], now[n + k]) == Decode(mode, block[StoredAt(mode, n) + k], side[k]))
    && (forall k | i <= k < n || n + i <= k < |block| :: now[k] == block[k])
  }

  /** One statement group of the unrolled loops. */
  method DecodeSample(mode: Mode, block: array<int>, side: array<int>, off: nat, n: nat, i: nat,
                      ghost block0: seq<int>, ghost side0: seq<int>)
    requires i < n == |side0| && 2 * n <= block.Length && off + n <= side.Length && |block0| == block.Length
    requires if side == block then off == SideAt(mode, n) && side0 == block0[off..off + n] else side0 == side[off..off + n]
    requires Progress(mode, block0, side0, block[..], n, i)
    modifies block
    ensures Progress(mode, block0, side0, block[..], n, i + 1)
  {
    ghost var before := block[..];
    assert side[off + i] == side0[i];
    hide Progress, Wrap32;
    match mode {
      case LeftSide =>
        block[n + i] := Wrap32(block[i] - side[off + i]);
      case RightSide =>
        block[i] := Wrap32(side[off + i] + block[n + i]);
      case MidSide =>
        var s := side[off + i];
        var right := Wrap32(block[i] - s / 2);
        block[n + i] := right;
        block[i] := Wrap32(right + s);
    }
    ProgressStep(mode, block0, side0, before, block[..], n, i);
  }

  lemma ProgressStep(mode: Mode, block: seq<int>, side: seq<int>, now: seq<int>, next: seq<int>, n: nat, i: nat)
    requires i < n == |side| && 2 * n <= |block| && |next| == |block|
    requires Progress(mode, block, side, now, n, i)
    requires Pair(next[i], next[n + i]) == Decode(mode, now[StoredAt(mode, n) + i], side[i])
    requires forall k | 0 <= k < |next| && k != i && k != n + i :: next[k] == now[k]
    ensures Progress(mode, block, side, next, n, i + 1)
  {
    hide Decode;
  }

  /** apply_channel_decorrelation: four samples at a time, then the rest one by one. */
  method Apply(mode: Mode, block: array<int>, side: array<int>, off: nat, n: nat)
    requires 2 * n <= block.Length && off + n <= side.Length
    requires side == block ==> off == SideAt(mode, n)
    modifies block
    ensures Progress(mode, old(block[..]), old(side[off..off + n]), block[..], n, n)
  {
    ghost var block0, side0 := block[..], side[off..off + n];
    var i := 0;
    while i + 3 < n
      invariant i <= n && Progress(mode, block0, side0, block[..], n, i)
      invariant side != block ==> side0 == side[off..off + n]
    {
      hide Progress;
      DecodeSample(mode, block, side, off, n, i, block0, side0);
      DecodeSample(mode, block, side, off, n, i + 1, block0, side0);
      DecodeSample(mode, block, side, off, n, i + 2, block0, side0);
      DecodeSample(mode, block, side, off, n, i + 3, block0, side0);
      i := i + 4;
    }
    while i < n
      invariant i <= n && Progress(mode, block0, side0, block[..], n, i)
      invariant side != block ==> side0 == side[off..off + n]
    {
      hide Progress;
      DecodeSample(mode, block, side, off, n, i, block0, side0);
      i := i + 1;
    }
  }

  /** What an encoder stores for these channels: one of them or their mean in the block, and their difference. */
  ghost predicate Coded(mode: Mode, left: seq<int>, right: seq<int>, block: seq<int>, side: seq<int>) {
    && |left| == |right| == |side| && 2 * |left| <= |block|
    && (forall k | 0 <= k < |left| :: Fits32(left[k]) && Fits32(right[k]) && side[k] == left[k] - right[k])
    && forall k | 0 <= k < |left| :: block[StoredAt(mode, |left|) + k] == Stored(mode, Pair(left[k], right[k]))
  }

  /** Applied to what was stored for two channels, it gives the channels back, wherever the side lies. */
  method Recover(mode: Mode, block: array<int>, side: array<int>, off: nat, n: nat, ghost left: seq<int>, ghost right: seq<int>)
    requires 2 * n <= block.Length && off + n <= side.Length && |left| == n
    requires side == block ==> off == SideAt(mode, n)
    requires Coded(mode, left, right, block[..], side[off..off + n])
    modifies block
    ensures block[..n] == left && block[n..2 * n] == right
  {
    hide Progress, Coded;
    ghost var block0, side0 := block[..], side[off..off + n];
    Apply(mode, block, side, off, n);
    ApplyInverts(mode, left, right, block0, side0, block[..]);
    assert block[..n] == block[..][..n] && block[n..2 * n] == block[..][n..2 * n];
  }

  lemma ApplyInverts(mode: Mode, left: seq<int>, right: seq<int>, block: seq<int>, side: seq<int>, now: seq<int>)
    requires Coded(mode, left, right, block, side)
    requires Progress(mode, block, side, now, |left|, |left|)
    ensures now[..|left|] == left && now[|left|..2 * |left|] == right
  {
    forall k | 0 <= k < |left| ensures now[k] == left[k] && now[|left| + k] == right[k] {
      DecodeInverts(mode, Pair(left[k], right[k]));
      assert Pair(now[k], now[|left| + k]) == Decode(mode, block[StoredAt(mode, |left|) + k], side[k]);
    }
  }

  /** Every stereo sample of 32 bits comes back exactly from its stored channel and 33-bit difference. Below 32 bits the
      difference fits the int32 side channel; at 32 bits it fits the int64 one. */
  lemma DecodeInverts(mode: Mode, p: Pair)
    requires Fits32(p.left) && Fits32(p.right)
    ensures Fits32(Stored(mode, p)) && Fits64(p.left - p.right)
    ensures (-0x4000_0000 <= p.left < 0x4000_0000 && -0x4000_0000 <= p.right < 0x4000_0000) ==> Fits32(p.left - p.right)
    ensures Decode(mode, Stored(mode, p), p.left - p.right) == p
  {
    var side := p.left - p.right;
    assert (p.left + p.right) / 2 - side / 2 == p.right;
  }
}
