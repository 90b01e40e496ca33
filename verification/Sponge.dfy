/** The overwrite-mode sponge over twelve field elements, absorbed eight at a time, in the three loops
    that compute it. */
module Sponge {
  import opened Goldilocks

  const WIDTH: nat := 12
  const RATE: nat := 8

  type State = s: seq<Felt> | |s| == WIDTH witness seq(WIDTH, _ => 0)

  /** The Poseidon permutation is left uninterpreted. */
  type Perm = State -> State

  function Zero(): State { seq(WIDTH, _ => 0) }

  /** A chunk overwrites the front of the state. */
  function Overwrite(s: State, chunk: seq<Felt>): State
    requires |chunk| <= RATE
  {
    chunk + s[|chunk|..]
  }

  function Absorb(perm: Perm, s: State, words: seq<Felt>): State
    decreases |words|
  {
    if words == [] then s
    else if |words| <= RATE then perm(Overwrite(s, words))
    else Absorb(perm, perm(Overwrite(s, words[..RATE])), words[RATE..])
  }

  function Hash(perm: Perm, words: seq<Felt>): (r: seq<Felt>)
    ensures |r| == 4
  {
    Absorb(perm, Zero(), words)[..4]
  }

  lemma AbsorbStep(perm: Perm, s: State, words: seq<Felt>, n: nat)
    requires n < |words|
    ensures var k := if |words| - n >= RATE then RATE else |words| - n;
            Absorb(perm, s, words[n..]) == Absorb(perm, perm(Overwrite(s, words[n..n + k])), words[n + k..])
  {
    var rest := words[n..];
    if |rest| <= RATE {
      assert words[n..|words|] == rest && words[|words|..] == [];
    } else {
      assert rest[..RATE] == words[n..n + RATE] && rest[RATE..] == words[n + RATE..];
    }
  }

  /** A state whose front is a chunk and whose back is that of s. */
  lemma IsOverwritten(now: seq<Felt>, s: State, chunk: seq<Felt>)
    requires |chunk| <= RATE && |now| == WIDTH && now[..|chunk|] == chunk && now[|chunk|..] == s[|chunk|..]
    ensures now == Overwrite(s, chunk)
  {
    assert now == now[..|chunk|] + now[|chunk|..];
  }

  // ---- the poseidon instruction ----

  /** Overwrites the front of the buffer with the words from `from` on. */
  method ReadInto(input: array<Felt>, words: seq<Felt>, from: nat, len: nat)
    requires input.Length == WIDTH && len <= RATE && from + len <= |words|
    modifies input
    ensures input[..len] == words[from..from + len] && input[len..] == old(input[len..])
  {
    for index := 0 to len
      invariant input[..index] == words[from..from + index] && input[len..] == old(input[len..])
    {
      input[index] := words[from + index];
    }
  }

  /** Copies the back of a permuted state into the buffer. */
  method CopyBack(input: array<Felt>, output: State, from: nat)
    requires input.Length == WIDTH && from <= WIDTH
    modifies input
    ensures input[..from] == old(input[..from]) && input[from..] == output[from..]
  {
    for index := from to WIDTH
      invariant input[..from] == old(input[..from]) && input[from..index] == output[from..index]
    {
      input[index] := output[index];
    }
    assert input[from..] == input[from..WIDTH] && output[from..] == output[from..WIDTH];
  }

  /** Reads a chunk over the front of the buffer and permutes it. */
  method PermuteChunk(perm: Perm, input: array<Felt>, words: seq<Felt>, from: nat, len: nat, ghost s: State)
    returns (row: State)
    requires input.Length == WIDTH && len <= RATE && from + len <= |words| && input[len..] == s[len..]
    modifies input
    ensures row == perm(Overwrite(s, words[from..from + len])) && input[len..] == s[len..]
  {
    ReadInto(input, words, from, len);
    IsOverwritten(input[..], s, words[from..from + len]);
    row := perm(input[..]);
  }

  /** `execute_inst_poseidon`: the hash that is written to memory. */
  method ExecutePoseidon(perm: Perm, words: seq<Felt>) returns (output: seq<Felt>)
    requires words != []
    ensures output == Hash(perm, words)
  {
    hide Absorb, Overwrite;
    var input := new Felt[WIDTH](_ => 0);
    var readPtr, tail := 0, 0;
    output := [];
    ghost var s: State := Zero();
    assert words[0..] == words;
    while true
      invariant tail == 0 && (readPtr > 0 ==> readPtr + RATE <= |words|)
      invariant Absorb(perm, Zero(), words) == Absorb(perm, s, words[readPtr..])
      invariant input[RATE..] == s[RATE..] && (readPtr == 0 ==> input[..] == s)
      decreases |words| - readPtr
    {
      if readPtr + RATE > |words| {
        tail := |words| - readPtr;
        assert input[tail..] == s[tail..];
        break;
      }
      var row := PermuteChunk(perm, input, words, readPtr, RATE, s);
      AbsorbStep(perm, s, words, readPtr);
      s := row;
      output := row[..4];
      readPtr := readPtr + RATE;
      if readPtr + RATE > |words| {
        tail := |words| - readPtr;
        if tail != 0 { CopyBack(input, row, tail); }
        AllAbsorbed(perm, s, words, readPtr);
        break;
      }
      CopyBack(input, row, RATE);
    }
    if tail != 0 {
      var row := PermuteChunk(perm, input, words, readPtr, tail, s);
      AbsorbStep(perm, s, words, readPtr);
      AllAbsorbed(perm, row, words, readPtr + tail);
      output := row[..4];
    }
  }

  lemma AllAbsorbed(perm: Perm, s: State, words: seq<Felt>, n: nat)
    requires n <= |words|
    ensures n == |words| ==> Absorb(perm, s, words[n..]) == s
  {
  }

  // ---- hashing a slice ----

  /** `calculate_arbitrary_poseidon`. */
  method ArbitraryPoseidon(perm: Perm, words: seq<Felt>) returns (output: seq<Felt>)
    ensures output == Hash(perm, words)
  {
    var state: State := Zero();
    var n := 0;
    assert words[0..] == words;
    while n < |words|
      invariant n <= |words| && Absorb(perm, Zero(), words) == Absorb(perm, state, words[n..])
    {
      var k := if |words| - n >= RATE then RATE else |words| - n;
      AbsorbStep(perm, state, words, n);
      state := perm(words[n..n + k] + state[k..]);
      n := n + k;
    }
    assert words[n..] == [];
    output := state[..4];
  }

  // ---- what is left of the start ----

  function Least(a: nat, b: nat): nat { if a <= b then a else b }

  /** Only the part of the start that the first chunk does not overwrite matters. */
  lemma AbsorbForgets(perm: Perm, s: State, t: State, words: seq<Felt>)
    requires words != [] && s[Least(|words|, RATE)..] == t[Least(|words|, RATE)..]
    ensures Absorb(perm, s, words) == Absorb(perm, t, words)
  {
    if |words| <= RATE {
      assert Overwrite(s, words) == Overwrite(t, words);
    } else {
      assert Overwrite(s, words[..RATE]) == Overwrite(t, words[..RATE]);
    }
  }
}
