/**
 * The signatures the generator deduplicates by: an element evaluated on every
 * state of the sample, flattened into one integer vector.
 *
 * Booleans contribute one 0/1 entry per state and numericals their value.
 * Concepts and roles contribute, per state, the size of the denotation's
 * canonical data followed by the data itself. The canonical data of a
 * denotation is a parameter `enc`; its only assumed property is injectivity.
 */
module Signatures {
  import opened Wrappers
  import opened Elements

  // ---------------------------------------------------------------------------
  // Length-prefixed encoding

  /** Per block: its length, then its entries. */
  function Encode(blocks: seq<seq<int>>): seq<int>
  {
    if blocks == [] then [] else [|blocks[0]|] + blocks[0] + Encode(blocks[1..])
  }

  /** Total signature length: one prefix entry plus the block length, summed over the blocks. */
  function TotalLength(blocks: seq<seq<int>>): nat
  {
    if blocks == [] then 0 else 1 + |blocks[0]| + TotalLength(blocks[1..])
  }

  /** Reads a length-prefixed vector back into its blocks; a prefix that is negative or too long is an error. */
  function Decode(s: seq<int>): (r: Option<seq<seq<int>>>)
    decreases |s|
  {
    if s == [] then Some([])
    else if s[0] < 0 || s[0] > |s| - 1 then None
    else
      match Decode(s[1 + s[0]..])
      case None => None
      case Some(rest) => Some([s[1..1 + s[0]]] + rest)
  }

  lemma {:induction false} EncodeLength(blocks: seq<seq<int>>)
    ensures |Encode(blocks)| == TotalLength(blocks)
  {
    if blocks != [] {
      EncodeLength(blocks[1..]);
    }
  }

  /** Decoding inverts encoding. */
  lemma {:induction false} DecodeEncode(blocks: seq<seq<int>>)
    ensures Decode(Encode(blocks)) == Some(blocks)
  {
    if blocks != [] {
      var s := Encode(blocks);
      var b := blocks[0];
      DecodeEncode(blocks[1..]);
      assert s[0] == |b|;
      assert s[1..1 + |b|] == b;
      assert s[1 + |b|..] == Encode(blocks[1..]);
      assert [b] + blocks[1..] == blocks;
    }
  }

  /** The encoding is uniquely decodable: equal signatures come from equal block sequences. */
  lemma EncodeInjective(xs: seq<seq<int>>, ys: seq<seq<int>>)
    ensures Encode(xs) == Encode(ys) <==> xs == ys
  {
    if Encode(xs) == Encode(ys) {
      DecodeEncode(xs);
      DecodeEncode(ys);
    }
  }

  lemma {:induction false} EncodeSnoc(blocks: seq<seq<int>>, b: seq<int>)
    ensures Encode(blocks + [b]) == Encode(blocks) + [|b|] + b
  {
    if blocks == [] {
      assert blocks + [b] == [b];
    } else {
      assert (blocks + [b])[1..] == blocks[1..] + [b];
      EncodeSnoc(blocks[1..], b);
    }
  }

  // ---------------------------------------------------------------------------
  // The four signature builders

  /** `evaluate_boolean`: one entry per state, 1 when the boolean holds there and 0 otherwise. */
  method EvaluateBoolean(holds: State -> bool, states: seq<State>) returns (result: seq<int>)
    ensures |result| == |states|
    ensures forall i :: 0 <= i < |states| ==> result[i] == (if holds(states[i]) then 1 else 0)
  {
    result := [];
    var i := 0;
    while i < |states|
      invariant i <= |states|
      invariant |result| == i
      invariant forall k :: 0 <= k < i ==> result[k] == (if holds(states[k]) then 1 else 0)
    {
      result := result + [if holds(states[i]) then 1 else 0];
      i := i + 1;
    }
  }

  /** `evaluate_numerical`: one entry per state, the numerical's value there. */
  method EvaluateNumerical(value: State -> int, states: seq<State>) returns (result: seq<int>)
    ensures |result| == |states|
    ensures forall i :: 0 <= i < |states| ==> result[i] == value(states[i])
  {
    result := [];
    var i := 0;
    while i < |states|
      invariant i <= |states|
      invariant |result| == i
      invariant forall k :: 0 <= k < i ==> result[k] == value(states[k])
    {
      result := result + [value(states[i])];
      i := i + 1;
    }
  }

  /** An element's denotation on each state of the sample, in state order. */
  function PerState<D>(eval: State -> D, states: seq<State>): (ds: seq<D>)
    ensures |ds| == |states|
    ensures forall i :: 0 <= i < |states| ==> ds[i] == eval(states[i])
  {
    seq(|states|, i requires 0 <= i < |states| => eval(states[i]))
  }

  /** The canonical data of given per-state denotations, in state order. */
  function DenotationBlocks<D>(ds: seq<D>, enc: D -> seq<int>): (b: seq<seq<int>>)
    ensures |b| == |ds|
    ensures forall i :: 0 <= i < |ds| ==> b[i] == enc(ds[i])
  {
    seq(|ds|, i requires 0 <= i < |ds| => enc(ds[i]))
  }

  /**
   * The loop shared by `evaluate_concept` and `evaluate_role`: per state, the
   * size of the denotation's canonical data and then the data.
   */
  method EncodeStates<D>(eval: State -> D, states: seq<State>, enc: D -> seq<int>) returns (result: seq<int>)
    ensures result == Encode(DenotationBlocks(PerState(eval, states), enc))
    ensures |result| == TotalLength(DenotationBlocks(PerState(eval, states), enc))
  {
    var blocks := DenotationBlocks(PerState(eval, states), enc);
    result := [];
    var i := 0;
    while i < |states|
      invariant i <= |states|
      invariant result == Encode(blocks[..i])
    {
      var data := enc(eval(states[i]));
      EncodeSnoc(blocks[..i], data);
      assert blocks[..i + 1] == blocks[..i] + [data];
      result := result + [|data|] + data;
      i := i + 1;
    }
    assert blocks[..i] == blocks;
    EncodeLength(blocks);
  }

  /**
   * `evaluate_concept`. The concept's evaluation, with its caches, is the
   * parameter `eval`, so any concept kind is covered.
   */
  method EvaluateConcept(eval: State -> ConceptDenotation, states: seq<State>, enc: ConceptDenotation -> seq<int>)
    returns (result: seq<int>)
    ensures result == Encode(DenotationBlocks(PerState(eval, states), enc))
    ensures |result| == TotalLength(DenotationBlocks(PerState(eval, states), enc))
  {
    result := EncodeStates(eval, states, enc);
  }

  /** `evaluate_role`, with the role's evaluation as the parameter `eval`. */
  method EvaluateRole(eval: State -> RoleDenotation, states: seq<State>, enc: RoleDenotation -> seq<int>)
    returns (result: seq<int>)
    ensures result == Encode(DenotationBlocks(PerState(eval, states), enc))
    ensures |result| == TotalLength(DenotationBlocks(PerState(eval, states), enc))
  {
    result := EncodeStates(eval, states, enc);
  }

  // ---------------------------------------------------------------------------
  // What equal signatures mean

  ghost predicate Injective<D(!new)>(enc: D -> seq<int>)
  {
    forall x, y :: enc(x) == enc(y) ==> x == y
  }

  /** With an injective encoding, two denotation sequences of one length have equal encodings exactly when they are equal. */
  lemma BlocksMeaning<D(!new)>(d1: seq<D>, d2: seq<D>, enc: D -> seq<int>)
    requires |d1| == |d2| && Injective(enc)
    ensures Encode(DenotationBlocks(d1, enc)) == Encode(DenotationBlocks(d2, enc)) <==> d1 == d2
  {
    var b1, b2 := DenotationBlocks(d1, enc), DenotationBlocks(d2, enc);
    EncodeInjective(b1, b2);
    if b1 == b2 {
      forall i | 0 <= i < |d1|
        ensures d1[i] == d2[i]
      {
        assert enc(d1[i]) == b1[i] == b2[i] == enc(d2[i]);
      }
    }
  }

  /**
   * With an injective canonical encoding, two concepts have the same
   * signature on a sample exactly when they denote the same set on every
   * state of it: this is what makes signature deduplication sound.
   */
  lemma ConceptSignatureMeaning(eval1: State -> ConceptDenotation, eval2: State -> ConceptDenotation, states: seq<State>,
                                enc: ConceptDenotation -> seq<int>)
    requires Injective(enc)
    ensures Encode(DenotationBlocks(PerState(eval1, states), enc)) == Encode(DenotationBlocks(PerState(eval2, states), enc))
        <==> forall i :: 0 <= i < |states| ==> eval1(states[i]) == eval2(states[i])
  {
    var d1, d2 := PerState(eval1, states), PerState(eval2, states);
    BlocksMeaning(d1, d2, enc);
    if forall i :: 0 <= i < |states| ==> eval1(states[i]) == eval2(states[i]) {
      assert d1 == d2;
    }
  }

  /** The same for roles: equal signatures exactly when the roles denote alike on every state. */
  lemma RoleSignatureMeaning(eval1: State -> RoleDenotation, eval2: State -> RoleDenotation, states: seq<State>,
                             enc: RoleDenotation -> seq<int>)
    requires Injective(enc)
    ensures Encode(DenotationBlocks(PerState(eval1, states), enc)) == Encode(DenotationBlocks(PerState(eval2, states), enc))
        <==> forall i :: 0 <= i < |states| ==> eval1(states[i]) == eval2(states[i])
  {
    var d1, d2 := PerState(eval1, states), PerState(eval2, states);
    BlocksMeaning(d1, d2, enc);
    if forall i :: 0 <= i < |states| ==> eval1(states[i]) == eval2(states[i]) {
      assert d1 == d2;
    }
  }
}
