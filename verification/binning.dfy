/** Which transform outputs feed which display bin (the nested loops of `main`
    in src/main.c). Display bin `i` sums the `per_bin` outputs at
    `findex = N/2 + i*per_bin + j`, so the bins read the upper half of the
    `N`-point spectrum, one contiguous group each, in increasing order. The
    transform and the floating-point sum and magnitude are not modelled: the
    magnitude of a group is a function supplied by the caller. */
module Binning {
  import opened CInt

  /** `N`: the transform size. */
  const N: nat := 64

  /** `nb_bins`: display bins, one per display column. */
  const NbBins: int := 16

  /** `per_bin = (N/2) / nb_bins`: transform outputs summed into one display bin. */
  function PerBin(n: nat, nbBins: int): nat
    requires nbBins > 0
  {
    (n / 2) / nbBins
  }

  /** `findex = N/2 + i*per_bin + j`: the `j`-th output read for display bin `i`. */
  function FIndex(n: nat, nbBins: int, i: int, j: int): int
    requires nbBins > 0
  {
    n / 2 + i * PerBin(n, nbBins) + j
  }

  /** The outputs read for display bin `i`, in the order the inner loop reads them. */
  function BinIndices(n: nat, nbBins: int, i: int): (ix: seq<int>)
    requires nbBins > 0
    ensures |ix| == PerBin(n, nbBins)
    ensures forall j :: 0 <= j < |ix| ==> ix[j] == FIndex(n, nbBins, i, j)
    ensures StrictlyIncreasing(ix)
    ensures 0 <= i < nbBins ==> forall j :: 0 <= j < |ix| ==> n / 2 <= ix[j] < n
  {
    var ix := seq(PerBin(n, nbBins), j requires 0 <= j < PerBin(n, nbBins) => FIndex(n, nbBins, i, j));
    if 0 <= i < nbBins then GroupInRange(n, nbBins, i); ix else ix
  }

  /** Every output read for the display bins `0..count-1`, in loop order. */
  function ScanOrder(n: nat, nbBins: int, count: nat): seq<int>
    requires nbBins > 0
  {
    if count == 0 then [] else ScanOrder(n, nbBins, count - 1) + BinIndices(n, nbBins, count - 1)
  }

  /** The firmware's constants give two outputs per display bin. */
  lemma FirmwarePerBin()
    ensures PerBin(N, NbBins) == 2
  {
  }

  /** Every index read lies in the upper half `[N/2, N)` of the spectrum. */
  lemma IndexInUpperHalf(n: nat, nbBins: int, i: int, j: int)
    requires nbBins > 0 && 0 <= i < nbBins && 0 <= j < PerBin(n, nbBins)
    ensures n / 2 <= FIndex(n, nbBins, i, j) < n
  {
    var p := PerBin(n, nbBins);
    MulMono(i + 1, nbBins, p);
    assert (i + 1) * p == i * p + p;
    assert nbBins * p <= n / 2;
  }

  /** The first `count` display bins read the outputs `N/2 .. N/2 + count*per_bin - 1`,
      each once and in increasing order. */
  lemma {:induction false} ScanOrderConsecutive(n: nat, nbBins: int, count: nat)
    requires nbBins > 0
    ensures var p := PerBin(n, nbBins);
      ScanOrder(n, nbBins, count) == seq(count * p, k requires 0 <= k < count * p => n / 2 + k)
  {
    var p := PerBin(n, nbBins);
    if count > 0 {
      ScanOrderConsecutive(n, nbBins, count - 1);
      var before := ScanOrder(n, nbBins, count - 1);
      var group := BinIndices(n, nbBins, count - 1);
      assert count * p == (count - 1) * p + p;
      forall k | 0 <= k < count * p
        ensures (before + group)[k] == n / 2 + k
      {
        if k >= (count - 1) * p {
          assert (before + group)[k] == group[k - (count - 1) * p];
        }
      }
    }
  }

  /** Each element is smaller than every later one, so none repeats. */
  predicate StrictlyIncreasing(s: seq<int>) {
    forall a, b :: 0 <= a < b < |s| ==> s[a] < s[b]
  }

  /** For an even `N` that `nb_bins` divides in half, one pass reads exactly the
      outputs `N/2 .. N-1`, in increasing order, each once. */
  lemma ScanCoversUpperHalf(n: nat, nbBins: int)
    requires nbBins > 0 && n % 2 == 0 && (n / 2) % nbBins == 0
    ensures ScanOrder(n, nbBins, nbBins as nat) == seq(n / 2, k requires 0 <= k < n / 2 => n / 2 + k)
    ensures StrictlyIncreasing(ScanOrder(n, nbBins, nbBins as nat))
  {
    ScanOrderConsecutive(n, nbBins, nbBins as nat);
    var p := PerBin(n, nbBins);
    assert n / 2 == nbBins * p + (n / 2) % nbBins;
  }

  /** Each output of the upper range belongs to exactly one display bin and one
      slot inside it: the groups partition the range. */
  lemma GroupsPartition(n: nat, nbBins: int, k: int)
    requires nbBins > 0 && PerBin(n, nbBins) > 0
    requires n / 2 <= k < n / 2 + nbBins * PerBin(n, nbBins)
    ensures var p := PerBin(n, nbBins);
      var i := (k - n / 2) / p;
      var j := (k - n / 2) % p;
      0 <= i < nbBins && 0 <= j < p && FIndex(n, nbBins, i, j) == k
    ensures forall i, j :: 0 <= i < nbBins && 0 <= j < PerBin(n, nbBins) && FIndex(n, nbBins, i, j) == k ==>
      i == (k - n / 2) / PerBin(n, nbBins) && j == (k - n / 2) % PerBin(n, nbBins)
  {
    var p := PerBin(n, nbBins);
    var off := k - n / 2;
    assert off == p * (off / p) + off % p;
    if off / p >= nbBins {
      MulMono(nbBins, off / p, p);
      assert false;
    }
    forall i, j | 0 <= i < nbBins && 0 <= j < p && FIndex(n, nbBins, i, j) == k
      ensures i == off / p && j == off % p
    {
      assert off == p * i + j;
      DivModUnique(off, p, i, j);
    }
  }

  /** The transform outputs that feed display bin `i`, in the order they are summed. */
  function Group<T>(fout: seq<T>, n: nat, nbBins: int, i: int): (g: seq<T>)
    requires |fout| == n && nbBins > 0 && 0 <= i < nbBins
    ensures |g| == PerBin(n, nbBins)
    ensures forall j :: 0 <= j < |g| ==> n / 2 <= FIndex(n, nbBins, i, j) < n
    ensures forall j :: 0 <= j < |g| ==> g[j] == fout[FIndex(n, nbBins, i, j)]
  {
    GroupInRange(n, nbBins, i);
    seq(PerBin(n, nbBins), j requires 0 <= j < PerBin(n, nbBins) => fout[FIndex(n, nbBins, i, j)])
  }

  /** All indices of one display bin lie in the upper half of the spectrum. */
  lemma GroupInRange(n: nat, nbBins: int, i: int)
    requires nbBins > 0 && 0 <= i < nbBins
    ensures forall j :: 0 <= j < PerBin(n, nbBins) ==> n / 2 <= FIndex(n, nbBins, i, j) < n
  {
    forall j | 0 <= j < PerBin(n, nbBins)
      ensures n / 2 <= FIndex(n, nbBins, i, j) < n
    {
      IndexInUpperHalf(n, nbBins, i, j);
    }
  }

  /** One magnitude per display bin, bin `i` computed by `magOf` from its group
      (the firmware sums the group and takes the truncated complex magnitude). */
  function BinMagnitudes<T>(fout: seq<T>, n: nat, nbBins: int, magOf: seq<T> -> int): (mags: seq<int>)
    requires |fout| == n && nbBins > 0
    ensures |mags| == nbBins
    ensures forall i :: 0 <= i < nbBins ==> mags[i] == magOf(Group(fout, n, nbBins, i))
  {
    seq(nbBins, i requires 0 <= i < nbBins => magOf(Group(fout, n, nbBins, i)))
  }

  /** A display bin's magnitude depends only on its own group: two spectra that
      agree on the outputs of bin `i` give bin `i` the same magnitude. */
  lemma BinMagnitudesLocal<T>(fout: seq<T>, fout': seq<T>, n: nat, nbBins: int, magOf: seq<T> -> int, i: int)
    requires |fout| == n && |fout'| == n && nbBins > 0 && 0 <= i < nbBins
    requires forall j :: 0 <= j < PerBin(n, nbBins) ==>
      fout[BinIndices(n, nbBins, i)[j]] == fout'[BinIndices(n, nbBins, i)[j]]
    ensures BinMagnitudes(fout, n, nbBins, magOf)[i] == BinMagnitudes(fout', n, nbBins, magOf)[i]
  {
    var ix := BinIndices(n, nbBins, i);
    assert forall j :: 0 <= j < |ix| ==> Group(fout, n, nbBins, i)[j] == fout[ix[j]];
    assert Group(fout, n, nbBins, i) == Group(fout', n, nbBins, i);
  }
}
