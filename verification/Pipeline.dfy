// One hash, and the pipelined form that prepares the next scratchpad while
// finishing the current hash (src/vm.cpp). The generated programs and BLAKE2b are
// parameters.
module Pipeline {
  import opened Words
  import opened AesHash

  const BLOCKS: nat := 0x2_0000   // 2 MiB of 16-byte blocks

  type Pad = s: seq<Block> | |s| == BLOCKS witness seq(BLOCKS, _ => [])
  type Registers = seq<Byte>
  type Hash = seq<Byte>

  // What one program run leaves: the register file, the scratchpad, and the
  // rounding mode, which carries over to the next run of the same hash.
  datatype Ran = Ran(regs: Registers, pad: Pad, rounding: nat)

  // Everything fixed for a job: AES, BLAKE2b, the dataset behind `run`.
  datatype Env = Env(
    aes: Aes,
    seedOf: seq<Byte> -> Quad,               // 64-byte BLAKE2b of a block template
    run: (Quad, Pad, nat) -> Ran,            // program seed, scratchpad, rounding mode
    chain: Registers -> Quad,                // 64-byte BLAKE2b of the register file
    final: (Registers, Quad) -> Hash)        // 32-byte BLAKE2b with the scratchpad hash put in

  ghost function FilledPad(e: Env, q: Quad): (p: Pad)
    ensures Filled(e.aes, q, p)
  {
    hide FillState, Part;
    var p: Pad := seq(BLOCKS, k requires 0 <= k < BLOCKS => Part(FillState(e.aes, q, k / 4 + 1), k % 4));
    p
  }

  function FillEnd(e: Env, q: Quad): Quad { FillState(e.aes, q, BLOCKS / 4) }

  // `n` further programs, each seeded by the register file of the one before.
  function Chained(e: Env, n: nat, r: Ran): Ran {
    if n == 0 then r else Chained(e, n - 1, e.run(e.chain(r.regs), r.pad, r.rounding))
  }

  // The simple hash: fill, eight programs, hash the scratchpad.
  ghost function OneShot(e: Env, input: seq<Byte>): Hash {
    var q := e.seedOf(input);
    var r := Chained(e, 7, e.run(FillEnd(e, q), FilledPad(e, q), 0));
    e.final(r.regs, HashOf(e.aes, r.pad))
  }

  method RunProgram(e: Env, pad: array<Block>, key: Quad, rounding: nat) returns (regs: Registers, rounding': nat)
    requires pad.Length == BLOCKS
    modifies pad
    ensures Ran(regs, pad[..], rounding') == e.run(key, old(pad[..]), rounding)
  {
    var r := e.run(key, pad[..], rounding);
    forall k | 0 <= k < BLOCKS { pad[k] := r.pad[k]; }
    assert pad[..] == r.pad;
    regs, rounding' := r.regs, r.rounding;
  }

  method RunPrograms(e: Env, pad: array<Block>, seed: Quad) returns (regs: Registers)
    requires pad.Length == BLOCKS
    modifies pad
    ensures var r := Chained(e, 7, e.run(seed, old(pad[..]), 0)); regs == r.regs && pad[..] == r.pad
  {
    var key, rounding := seed, 0;
    var chain := 0;
    while chain < 7
      invariant chain <= 7
      invariant Chained(e, 7 - chain, e.run(key, pad[..], rounding)) == Chained(e, 7, e.run(seed, old(pad[..]), 0))
    {
      regs, rounding := RunProgram(e, pad, key, rounding);
      key := e.chain(regs);
      chain := chain + 1;
    }
    regs, rounding := RunProgram(e, pad, key, rounding);
  }

  method CalculateHash(e: Env, pad: array<Block>, input: seq<Byte>) returns (hash: Hash)
    requires pad.Length == BLOCKS
    modifies pad
    ensures hash == OneShot(e, input)
  {
    hide FillState, Absorbed, Chained, Filled;
    var key := FillAes(e.aes, e.seedOf(input), pad);
    FilledUnique(e.aes, e.seedOf(input), pad[..], FilledPad(e, e.seedOf(input)));
    var regs := RunPrograms(e, pad, key);
    var h := HashAes(e.aes, pad);
    hash := e.final(regs, h);
  }

  // The scratchpad holds the fill for `input`, and `key` is where that fill ended.
  ghost predicate Prepared(e: Env, pad: seq<Block>, key: Quad, input: seq<Byte>) {
    |pad| == BLOCKS && Filled(e.aes, e.seedOf(input), pad) && key == FillEnd(e, e.seedOf(input))
  }

  // With a run seed the fill is skipped, so the pad must already be prepared.
  // `nextPad` may be the very pad this hash runs on.
  method CalculateHashPipelined(e: Env, pad: array<Block>, input: seq<Byte>, nextInput: seq<Byte>,
                                nextPad: array<Block>, runSeed: Option<Quad>, interleave: bool)
    returns (hash: Hash, nextSeed: Quad)
    requires pad.Length == nextPad.Length == BLOCKS
    requires runSeed.Some? ==> Prepared(e, pad[..], runSeed.value, input)
    modifies pad, nextPad
    ensures hash == OneShot(e, input)
    ensures Prepared(e, nextPad[..], nextSeed, nextInput)
  {
    hide FillState, Absorbed, Chained, Filled;
    var key;
    if runSeed.Some? {
      key := runSeed.value;
    } else {
      key := FillAes(e.aes, e.seedOf(input), pad);
    }
    FilledUnique(e.aes, e.seedOf(input), pad[..], FilledPad(e, e.seedOf(input)));
    var regs := RunPrograms(e, pad, key);
    var h;
    if interleave {
      h, nextSeed := HashAndFillInterleaved(e.aes, pad, nextPad, e.seedOf(nextInput));
    } else {
      h := HashAes(e.aes, pad);
      nextSeed := FillAes(e.aes, e.seedOf(nextInput), nextPad);
    }
    hash := e.final(regs, h);
  }
}
