/** Path words: sequences of path symbols, powers of words and primitive words. */
module PathWords {
  import opened Arith

  type Symbol = nat
  type Word = seq<Symbol>

  datatype Power = Power(root: Word, exponent: nat)

  function Repeat(w: Word, k: nat): Word {
    if k == 0 then [] else w + Repeat(w, k - 1)
  }

  /** The concatenation of the powers. */
  function Expand(powers: seq<Power>): Word {
    if powers == [] then []
    else Expand(powers[..|powers| - 1]) + Repeat(powers[|powers| - 1].root, powers[|powers| - 1].exponent)
  }

  /** A nonempty word that is no proper power of another word. */
  ghost predicate Primitive(w: Word) {
    w != [] && forall u: Word, k: nat :: Repeat(u, k) == w ==> k == 1
  }

  lemma {:induction false} RepeatLength(w: Word, k: nat)
    ensures |Repeat(w, k)| == k * |w|
  {
    if k > 0 { RepeatLength(w, k - 1); }
  }

  lemma {:induction false} RepeatAdd(w: Word, j: nat, k: nat)
    ensures Repeat(w, j + k) == Repeat(w, j) + Repeat(w, k)
  {
    if j == 0 {
      assert [] + Repeat(w, k) == Repeat(w, k);
    } else {
      RepeatAdd(w, j - 1, k);
      assert w + (Repeat(w, j - 1) + Repeat(w, k)) == (w + Repeat(w, j - 1)) + Repeat(w, k);
    }
  }

  lemma RepeatOnce(w: Word)
    ensures Repeat(w, 1) == w
  {
    assert Repeat(w, 0) == [];
    assert w + [] == w;
  }

  lemma RepeatSnoc(w: Word, k: nat)
    ensures Repeat(w, k + 1) == Repeat(w, k) + w
  {
    RepeatAdd(w, k, 1);
    RepeatOnce(w);
  }

  lemma {:induction false} RepeatRepeat(w: Word, j: nat, k: nat)
    ensures Repeat(Repeat(w, j), k) == Repeat(w, j * k)
  {
    if k == 0 {
      assert j * k == 0;
    } else {
      RepeatRepeat(w, j, k - 1);
      RepeatAdd(w, j, j * (k - 1));
      assert j + j * (k - 1) == j * k;
    }
  }

  /** The letters of a power are the letters of its root, read cyclically. */
  lemma {:induction false} RepeatIndex(w: Word, k: nat, i: nat)
    requires w != [] && i < |Repeat(w, k)|
    ensures Repeat(w, k)[i] == w[i % |w|]
  {
    if i < |w| {
      ModSmall(i, |w|);
    } else {
      RepeatIndex(w, k - 1, i - |w|);
      ModShift(i, |w|);
    }
  }

  /** Every copy in a power is the root. */
  lemma RepeatCopy(w: Word, k: nat, j: nat, low: nat)
    requires j < k && low == j * |w|
    ensures low + |w| <= |Repeat(w, k)| && Repeat(w, k)[low..low + |w|] == w
  {
    RepeatAdd(w, j, k - j);
    RepeatLength(w, j);
    assert Repeat(w, k - j) == w + Repeat(w, k - j - 1);
    assert Repeat(w, k) == Repeat(w, j) + (w + Repeat(w, k - j - 1));
  }

  /** Two words that commute are powers of one word. */
  lemma {:induction false} CommonRoot(x: Word, y: Word) returns (z: Word, i: nat, j: nat)
    requires x + y == y + x
    ensures x == Repeat(z, i) && y == Repeat(z, j)
    ensures x != [] || y != [] ==> z != []
    decreases |x| + |y|, |x|
  {
    if x == [] {
      RepeatOnce(y);
      z, i, j := y, 0, 1;
    } else if |y| < |x| {
      z, j, i := CommonRoot(y, x);
    } else {
      var y' := y[|x|..];
      assert (x + y)[..|x|] == x && (y + x)[..|x|] == y[..|x|];
      assert y == x + y';
      assert x + y' == y' + x by {
        assert (x + y)[|x|..] == y && (y + x)[|x|..] == y' + x;
      }
      var k;
      z, i, k := CommonRoot(x, y');
      RepeatAdd(z, i, k);
      j := i + k;
    }
  }

  lemma PrimitiveRootOf(u: Word, z: Word, i: nat)
    requires Primitive(u) && u == Repeat(z, i)
    ensures u == z
  {
    assert i == 1;
    RepeatOnce(z);
  }

  /** A word of length |u| + |v| with letters read cyclically off u and off v is both u + v and v + u. */
  lemma Overlap(long: Word, u: Word, v: Word)
    requires u != [] && v != [] && |long| == |u| + |v|
    requires forall i :: 0 <= i < |long| ==> long[i] == u[i % |u|] == v[i % |v|]
    ensures long == u + v
  {
    forall i | 0 <= i < |long| ensures long[i] == (u + v)[i] {
      if i < |u| {
        ModSmall(i, |u|);
      } else {
        ModShift(i, |u|);
        assert long[i] == u[i % |u|] == u[(i - |u|) % |u|] == long[i - |u|];
        ModSmall(i - |u|, |v|);
      }
    }
  }

  /** Powers of u and of v that agree make u and v commute: both are read off one word with
      periods |u| and |v|. */
  lemma EqualPowersCommute(u: Word, k: nat, v: Word, l: nat)
    requires u != [] && v != [] && k >= 1 && l >= 1
    requires Repeat(u, k) == Repeat(v, l)
    ensures u + v == v + u
  {
    var n := |u| + |v|;
    RepeatRepeat(u, k, n);
    RepeatRepeat(v, l, n);
    RepeatLength(u, k * n);
    RepeatLength(v, l * n);
    RepeatLength(Repeat(u, k), n);
    RepeatLength(u, k);
    MulAtLeast(|u|, k);
    MulAtLeast(n, |Repeat(u, k)|);
    var long := Repeat(u, k * n)[..n];
    forall i | 0 <= i < n ensures long[i] == u[i % |u|] == v[i % |v|] {
      RepeatIndex(u, k * n, i);
      RepeatIndex(v, l * n, i);
    }
    Overlap(long, u, v);
    Overlap(long, v, u);
  }

  /** A nonempty word has at most one primitive root and exponent. */
  lemma UniquePrimitiveRoot(u: Word, k: nat, v: Word, l: nat)
    requires Primitive(u) && Primitive(v) && k >= 1 && l >= 1
    requires Repeat(u, k) == Repeat(v, l)
    ensures u == v && k == l
  {
    EqualPowersCommute(u, k, v, l);
    var z, i, j := CommonRoot(u, v);
    PrimitiveRootOf(u, z, i);
    PrimitiveRootOf(v, z, j);
    RepeatLength(u, k);
    RepeatLength(v, l);
    Distribute(|u|, k, l);
    Distribute(|u|, l, k);
    if k < l { MulAtLeast(|u|, l - k); }
    if l < k { MulAtLeast(|u|, k - l); }
  }

  /** Every nonempty word is a power of a primitive word. */
  lemma {:induction false} PrimitiveRootExists(w: Word) returns (u: Word, k: nat)
    requires w != []
    ensures Primitive(u) && k >= 1 && Repeat(u, k) == w
    decreases |w|
  {
    if Primitive(w) {
      RepeatOnce(w);
      u, k := w, 1;
    } else {
      var v: Word, j: nat :| Repeat(v, j) == w && j != 1;
      RepeatLength(v, j);
      assert j != 0 && v != [];
      MulAtLeast(|v|, j - 1);
      Distribute(|v|, j, 1);
      var i;
      u, i := PrimitiveRootExists(v);
      RepeatRepeat(u, i, j);
      k := i * j;
      MulAtLeast(i, j);
    }
  }

  /** A word read with period p, p dividing its length, is a power of its first p letters. */
  lemma {:induction false} PeriodicIsPower(w: Word, p: nat, k: nat)
    requires 0 < p && k * p == |w|
    requires forall i :: 0 <= i < |w| ==> w[i] == w[i % p]
    ensures k >= 1 ==> p <= |w| && w == Repeat(w[..p], k)
  {
    if k >= 1 {
      MulAtLeast(p, k);
      var r := Repeat(w[..p], k);
      RepeatLength(w[..p], k);
      forall i | 0 <= i < |w| ensures r[i] == w[i] { RepeatIndex(w[..p], k, i); }
      assert w == r;
    }
  }

  ghost predicate Periodic(w: Word, p: nat)
    requires p > 0
  {
    forall i :: 0 <= i < |w| ==> w[i] == w[i % p]
  }

  lemma ProperPowerHasPeriod(u: Word, k: nat)
    requires k >= 2 && u != []
    ensures var w := Repeat(u, k); |u| < |w| && |w| % |u| == 0 && Periodic(w, |u|)
  {
    var w, p := Repeat(u, k), |u|;
    RepeatLength(u, k);
    MulAtLeast(p, k - 1);
    Distribute(p, k, 1);
    DivModUnique(|w|, p, k, 0);
    forall i | 0 <= i < |w| ensures w[i] == w[i % p] {
      RepeatIndex(u, k, i);
      RepeatIndex(u, k, i % p);
      ModSmall(i % p, p);
    }
  }

  /** Primitivity is the absence of a proper period dividing the length. */
  lemma PrimitiveByPeriods(w: Word)
    requires w != []
    ensures Primitive(w) <==> forall p :: 1 <= p < |w| && |w| % p == 0 ==> !Periodic(w, p)
  {
    forall p | 1 <= p < |w| && |w| % p == 0 && Periodic(w, p) ensures !Primitive(w) {
      var k := |w| / p;
      DivModIdentity(|w|, p);
      assert k * p == |w|;
      PeriodicIsPower(w, p, k);
    }
    forall u: Word, k: nat | Repeat(u, k) == w && k != 1
      ensures exists p :: 1 <= p < |w| && |w| % p == 0 && Periodic(w, p)
    {
      RepeatLength(u, k);
      ProperPowerHasPeriod(u, k);
    }
  }

  /** Trial division over the possible periods. */
  method IsPrimitivePathWord(word: Word) returns (primitive: bool)
    ensures primitive <==> Primitive(word)
  {
    if word == [] { return false; }
    PrimitiveByPeriods(word);
    var period := 1;
    while period < |word|
      invariant 1 <= period <= |word|
      invariant forall p :: 1 <= p < period && |word| % p == 0 ==> !Periodic(word, p)
    {
      if |word| % period == 0 {
        var periodic := true;
        var i := 0;
        while i < |word|
          invariant 0 <= i <= |word|
          invariant forall j :: 0 <= j < i ==> word[j] == word[j % period]
          invariant periodic
        {
          if word[i] != word[i % period] {
            periodic := false;
            break;
          }
          i := i + 1;
        }
        if periodic {
          assert Periodic(word, period);
          return false;
        }
        assert !Periodic(word, period);
      }
      period := period + 1;
    }
    return true;
  }

  method ExpandPathPowers(powers: seq<Power>) returns (result: Word)
    ensures result == Expand(powers)
  {
    result := [];
    for i := 0 to |powers|
      invariant result == Expand(powers[..i])
    {
      var count := 0;
      while count < powers[i].exponent
        invariant 0 <= count <= powers[i].exponent
        invariant result == Expand(powers[..i]) + Repeat(powers[i].root, count)
      {
        RepeatSnoc(powers[i].root, count);
        result := result + powers[i].root;
        count := count + 1;
      }
      assert powers[..i + 1][..i] == powers[..i];
    }
    assert powers[..|powers|] == powers;
  }

  lemma ExpandSnoc(powers: seq<Power>, p: Power)
    ensures Expand(powers + [p]) == Expand(powers) + Repeat(p.root, p.exponent)
  {
    assert (powers + [p])[..|powers|] == powers;
  }
}
