/** The in-kernel counter generator: a splitmix64 mix on 64-bit words, applied twice. */
module CounterRng {

  // The mix is a chain of reversible stages; sums and products wrap modulo 2^64.

  function Shifted(x: bv64): bv64 { x + 0x9E3779B97F4A7C15 }
  function Unshifted(x: bv64): bv64 { x - 0x9E3779B97F4A7C15 }

  function Fold30(z: bv64): bv64 { z ^ (z >> 30) }
  function Unfold30(w: bv64): bv64 { w ^ (w >> 30) ^ (w >> 60) }

  function Fold27(z: bv64): bv64 { z ^ (z >> 27) }
  function Unfold27(w: bv64): bv64 { w ^ (w >> 27) ^ (w >> 54) }

  function Fold31(z: bv64): bv64 { z ^ (z >> 31) }
  function Unfold31(w: bv64): bv64 { w ^ (w >> 31) ^ (w >> 62) }

  function ScaledA(z: bv64): bv64 { z * 0xBF58476D1CE4E5B9 }
  function UnscaledA(w: bv64): bv64 { w * 0x96DE1B173F119089 }

  function ScaledB(z: bv64): bv64 { z * 0x94D049BB133111EB }
  function UnscaledB(w: bv64): bv64 { w * 0x319642B2D24D8EC3 }

  function SplitMix64(x: bv64): bv64 {
    Fold31(ScaledB(Fold27(ScaledA(Fold30(Shifted(x))))))
  }

  /** The explicit inverse: the stages undone in reverse order. */
  function UnSplitMix64(y: bv64): bv64 {
    Unshifted(Unfold30(UnscaledA(Unfold27(UnscaledB(Unfold31(y))))))
  }

  function Keyed(key: bv64, w: bv64): bv64 { key ^ w }

  function CounterU64(key: bv64, counter: bv64): bv64 {
    SplitMix64(Keyed(key, SplitMix64(counter)))
  }

  // Each stage is undone by its partner. The bit-level step unfolds one stage on the other's
  // expression; its caller then meets only the stage names, which keeps the solver off the bits.

  lemma UndoneOnBits(z: bv64)
    ensures Unfold30(z ^ (z >> 30)) == z && Fold30(z ^ (z >> 30) ^ (z >> 60)) == z
    ensures Unfold27(z ^ (z >> 27)) == z && Fold27(z ^ (z >> 27) ^ (z >> 54)) == z
    ensures Unfold31(z ^ (z >> 31)) == z && Fold31(z ^ (z >> 31) ^ (z >> 62)) == z
    ensures UnscaledA(z * 0xBF58476D1CE4E5B9) == z && ScaledA(z * 0x96DE1B173F119089) == z
    ensures UnscaledB(z * 0x94D049BB133111EB) == z && ScaledB(z * 0x319642B2D24D8EC3) == z
  {
  }

  lemma StagesUndone(z: bv64)
    ensures Unfold30(Fold30(z)) == z && Unfold27(Fold27(z)) == z && Unfold31(Fold31(z)) == z
    ensures UnscaledA(ScaledA(z)) == z && UnscaledB(ScaledB(z)) == z
  {
    UndoneOnBits(z);
    hide Unfold30, Unfold27, Unfold31, UnscaledA, UnscaledB;
  }

  lemma StagesRedone(w: bv64)
    ensures Fold30(Unfold30(w)) == w && Fold27(Unfold27(w)) == w && Fold31(Unfold31(w)) == w
    ensures ScaledA(UnscaledA(w)) == w && ScaledB(UnscaledB(w)) == w
  {
    UndoneOnBits(w);
    hide Fold30, Fold27, Fold31, ScaledA, ScaledB;
  }

  /** `UnSplitMix64` is a left inverse, so the mix loses nothing ... */
  lemma MixUndone(x: bv64)
    ensures UnSplitMix64(SplitMix64(x)) == x
  {
    assert Unshifted(Shifted(x)) == x;
    hide Shifted, Unshifted, Fold30, Unfold30, Fold27, Unfold27, Fold31, Unfold31;
    hide ScaledA, UnscaledA, ScaledB, UnscaledB;
    var a := Shifted(x);
    var b := Fold30(a);
    var c := ScaledA(b);
    var d := Fold27(c);
    StagesUndone(a);
    StagesUndone(b);
    StagesUndone(c);
    StagesUndone(d);
    StagesUndone(ScaledB(d));
  }

  /** ... and a right inverse, so every word is some counter's mix: a bijection on 64-bit words. */
  lemma MixRedone(y: bv64)
    ensures SplitMix64(UnSplitMix64(y)) == y
  {
    hide Fold30, Unfold30, Fold27, Unfold27, Fold31, Unfold31, ScaledA, UnscaledA, ScaledB, UnscaledB;
    var d := Unfold31(y);
    var c := UnscaledB(d);
    var b := Unfold27(c);
    var a := UnscaledA(b);
    assert Shifted(Unshifted(Unfold30(a))) == Unfold30(a);
    hide Shifted, Unshifted;
    StagesRedone(y);
    StagesRedone(d);
    StagesRedone(c);
    StagesRedone(b);
    StagesRedone(a);
  }

  lemma KeyedTwice(key: bv64, w: bv64)
    ensures Keyed(key, Keyed(key, w)) == w
  {
  }

  /** With one key, the draw determines the counter: distinct path indices never share a draw. */
  lemma DrawsNeverCollide(key: bv64, i: bv64, j: bv64)
    ensures CounterU64(key, i) == CounterU64(key, j) ==> i == j
  {
    hide SplitMix64, UnSplitMix64, Keyed;
    MixUndone(i);
    MixUndone(j);
    MixUndone(Keyed(key, SplitMix64(i)));
    MixUndone(Keyed(key, SplitMix64(j)));
    KeyedTwice(key, SplitMix64(i));
    KeyedTwice(key, SplitMix64(j));
  }

  /** With one key, every 64-bit word is drawn at some counter, so over all counters exactly once. */
  lemma EveryWordIsDrawn(key: bv64, bits: bv64)
    ensures CounterU64(key, UnSplitMix64(Keyed(key, UnSplitMix64(bits)))) == bits
  {
    hide SplitMix64, UnSplitMix64, Keyed;
    var a := UnSplitMix64(bits);
    MixRedone(bits);
    MixRedone(Keyed(key, a));
    KeyedTwice(key, a);
  }

  /** The first words of the published generator, which pin the constants themselves. */
  lemma FirstWords()
    ensures SplitMix64(0) == 0xE220A8397B1DCDAF
    ensures SplitMix64(1) == 0x910A2DEC89025CC1
    ensures SplitMix64(0x9E3779B97F4A7C15) == 0x6E789E6AA1B965F4
  {
  }
}
