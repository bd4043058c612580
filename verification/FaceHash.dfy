/** The perceptual hash of an unknown face, from its 8x8 gray thumbnail on. */
module FaceHash {

  /** The 64 gray values of the thumbnail, row by row. */
  type Gray = g: seq<int> | |g| == 64 witness seq(64, _ => 0)

  function Sum(g: seq<int>): int {
    if g == [] then 0 else g[0] + Sum(g[1..])
  }

  /** One bit per pixel: is it brighter than the mean?  The mean is Sum(g)/64, compared without division. */
  function HashOf(g: Gray): string {
    seq(64, i requires 0 <= i < 64 => if 64 * g[i] > Sum(g) then '1' else '0')
  }

  /** A change of contrast (a > 0) and brightness (b) of the whole thumbnail, without clipping. */
  function Relight(g: seq<int>, a: int, b: int): (r: seq<int>)
    ensures |r| == |g|
  {
    seq(|g|, i requires 0 <= i < |g| => a * g[i] + b)
  }

  lemma {:induction false} SumRelight(g: seq<int>, a: int, b: int)
    ensures Sum(Relight(g, a, b)) == a * Sum(g) + b * |g|
  {
    if g == [] {
    } else {
      var r := Relight(g, a, b);
      assert r[1..] == Relight(g[1..], a, b);
      SumRelight(g[1..], a, b);
      calc {
        Sum(r);
        (a * g[0] + b) + (a * Sum(g[1..]) + b * |g[1..]|);
        a * (g[0] + Sum(g[1..])) + b * (1 + |g[1..]|);
        a * Sum(g) + b * |g|;
      }
    }
  }

  /** The hash survives every change of lighting that keeps the order of brightness. */
  lemma HashIgnoresLighting(g: Gray, a: int, b: int)
    requires a > 0
    ensures HashOf(Relight(g, a, b)) == HashOf(g)
  {
    var r := Relight(g, a, b);
    SumRelight(g, a, b);
    forall i | 0 <= i < 64
      ensures HashOf(r)[i] == HashOf(g)[i]
    {
      ScaledExcess(a, b, g[i], Sum(g));
      ScaledSign(a, 64 * g[i] - Sum(g));
    }
  }

  /** By how much a pixel exceeds the mean grows by the contrast alone. */
  lemma ScaledExcess(a: int, b: int, pixel: int, sum: int)
    ensures 64 * (a * pixel + b) - (a * sum + b * 64) == a * (64 * pixel - sum)
  {
  }

  lemma ScaledSign(a: int, d: int)
    requires a > 0
    ensures a * d > 0 <==> d > 0
  {
  }

  // ----- the hash compares with the mean

  /** The sum is determined by this: it adds up over parts. */
  lemma {:induction false} SumConcat(a: seq<int>, b: seq<int>)
    ensures Sum(a + b) == Sum(a) + Sum(b)
    ensures forall x :: Sum([x]) == x
  {
    if a == [] {
      assert a + b == b;
    } else {
      assert (a + b)[1..] == a[1..] + b;
      SumConcat(a[1..], b);
    }
    forall x
      ensures Sum([x]) == x
    {
      assert [x][1..] == [];
    }
  }

  /** A bit is 1 exactly if its pixel is brighter than the mean of the thumbnail. */
  lemma BitsExactly(g: Gray, i: nat)
    requires i < 64
    ensures |HashOf(g)| == 64 && HashOf(g)[i] in {'0', '1'}
    ensures HashOf(g)[i] == '1' <==> g[i] as real > Sum(g) as real / 64.0
  {
  }

  lemma {:induction false} SumFlat(g: seq<int>, x: int)
    requires forall i :: 0 <= i < |g| ==> g[i] == x
    ensures Sum(g) == x * |g|
  {
    if g != [] {
      SumFlat(g[1..], x);
    }
  }

  lemma {:induction false} SumAtMost(g: seq<int>, m: int)
    requires forall i :: 0 <= i < |g| ==> g[i] <= m
    ensures Sum(g) <= m * |g|
    ensures Sum(g) == m * |g| ==> forall i :: 0 <= i < |g| ==> g[i] == m
  {
    if g != [] {
      SumAtMost(g[1..], m);
      assert m * |g| == m + m * |g[1..]|;
      if Sum(g) == m * |g| {
        forall i | 0 <= i < |g|
          ensures g[i] == m
        {
          if i > 0 {
            assert g[1..][i - 1] == m;
          }
        }
      }
    }
  }

  /** The hash is all zeros exactly for a flat thumbnail. */
  lemma FlatExactly(g: Gray)
    ensures (forall i :: 0 <= i < 64 ==> HashOf(g)[i] == '0') <==> (forall i :: 0 <= i < 64 ==> g[i] == g[0])
  {
    if forall i :: 0 <= i < 64 ==> g[i] == g[0] {
      SumFlat(g, g[0]);
    }
    if forall i :: 0 <= i < 64 ==> HashOf(g)[i] == '0' {
      var r := Relight(g, 64, 0);
      SumRelight(g, 64, 0);
      forall i | 0 <= i < 64
        ensures r[i] <= Sum(g)
      {
        assert HashOf(g)[i] == '0';
      }
      SumAtMost(r, Sum(g));
      forall i | 0 <= i < 64
        ensures g[i] == g[0]
      {
        assert r[i] == r[0] == Sum(g);
      }
    }
  }

  lemma {:induction false} SumAbove(g: seq<int>, m: int)
    requires forall i :: 0 <= i < |g| ==> g[i] > m
    ensures Sum(g) >= |g| * (m + 1)
  {
    if g != [] {
      SumAbove(g[1..], m);
    }
  }

  /** Not every pixel is above the mean: the hash always has a 0 bit, and 64 bits in all. */
  lemma HashHasZeroBit(g: Gray)
    ensures |HashOf(g)| == 64
    ensures exists i :: 0 <= i < 64 && HashOf(g)[i] == '0'
  {
    if forall i :: 0 <= i < 64 ==> HashOf(g)[i] == '1' {
      var r := Relight(g, 64, 0);
      forall i | 0 <= i < 64
        ensures r[i] > Sum(g)
      {
        assert HashOf(g)[i] == '1';
      }
      SumAbove(r, Sum(g));
      SumRelight(g, 64, 0);
      assert false;
    }
  }
}
