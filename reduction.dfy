/**
 * The reduction controller (recurse_stitch): folds an ordered list of images into one by
 * repeatedly stitching the last two live slots. It is stated for any image type I, any
 * pairwise stitch `fs` with results of type S, and any conversion `conv` that turns an
 * intermediate result into the image stored in its slot.
 */
module Reduction {
  import opened Wrappers

  /**
   * A pairwise stitch as the controller sees it: images of type I in, a result of type S
   * (`(result, mapped)`) or None (`(None, None)`) out.
   */
  type PairStitch<-I, S> = (I, I) -> Option<S>

  /**
   * The strict right-to-left fold fs(l0, conv(fs(l1, ... conv(fs(l[n-2], l[n-1]))))): the first
   * failing pair makes the whole fold fail, and the last pair's diagnostic is kept.
   */
  function Reduce<I, S>(fs: PairStitch<I, S>, conv: S -> I, images: seq<I>): Option<S>
    requires |images| >= 2
    decreases |images|
  {
    if |images| == 2 then fs(images[0], images[1])
    else
      match Reduce(fs, conv, images[1..])
      case None => None
      case Some(st) => fs(images[0], conv(st))
  }

  /**
   * What slot k of the working list holds once the reduction has passed it: the last slot keeps
   * the last image; slot k < n - 1 receives conv of the stitch of image k with slot k + 1. None
   * once some pair at or right of k has failed.
   */
  function Carried<I, S>(fs: PairStitch<I, S>, conv: S -> I, images: seq<I>, k: nat): Option<I>
    requires k < |images|
    decreases |images| - k
  {
    if k == |images| - 1 then Some(images[k])
    else
      match Carried(fs, conv, images, k + 1)
      case None => None
      case Some(right) =>
        match fs(images[k], right)
        case None => None
        case Some(st) => Some(conv(st))
  }

  /** A failure propagates leftward: once slot j has no value, no slot left of it does. */
  lemma {:induction false} CarriedFailurePropagates<I, S>(fs: PairStitch<I, S>, conv: S -> I, images: seq<I>, j: nat, k: nat)
    requires k <= j < |images| && Carried(fs, conv, images, j).None?
    ensures Carried(fs, conv, images, k).None?
    decreases j - k
  {
    if k < j {
      CarriedFailurePropagates(fs, conv, images, j, k + 1);
    }
  }

  /** Slot k holds the converted panorama of the right fold over images[k..]. */
  lemma {:induction false} CarriedIsFold<I, S>(fs: PairStitch<I, S>, conv: S -> I, images: seq<I>, k: nat)
    requires k + 2 <= |images|
    ensures Carried(fs, conv, images, k) == match Reduce(fs, conv, images[k..])
                                            case None => None
                                            case Some(st) => Some(conv(st))
    decreases |images| - k
  {
    var tail := images[k..];
    if k + 2 == |images| {
      assert tail == [images[k], images[k + 1]];
    } else {
      CarriedIsFold(fs, conv, images, k + 1);
      assert tail[1..] == images[k + 1..];
      assert tail[0] == images[k];
    }
  }

  /** The fold seen from slot 1: stitch the first image with what the reduction carried into slot 1. */
  lemma {:induction false} ReduceFromCarried<I, S>(fs: PairStitch<I, S>, conv: S -> I, images: seq<I>)
    requires |images| >= 2
    ensures Reduce(fs, conv, images) == match Carried(fs, conv, images, 1)
                                        case None => None
                                        case Some(right) => fs(images[0], right)
  {
    if |images| > 2 {
      CarriedIsFold(fs, conv, images, 1);
      assert images[1..] == images[1..][0..];
    }
  }

  /** With exactly two images the result is the pairwise stitch's own, diagnostic included. */
  lemma {:induction false} ReduceOfTwo<I, S>(fs: PairStitch<I, S>, conv: S -> I, a: I, b: I)
    ensures Reduce(fs, conv, [a, b]) == fs(a, b)
  {
  }

  /** A successful fold means every pair succeeded: every slot right of the first was filled. */
  lemma {:induction false} SuccessfulReduceFillsEverySlot<I, S>(fs: PairStitch<I, S>, conv: S -> I, images: seq<I>, k: nat)
    requires |images| >= 2 && 1 <= k < |images|
    requires Reduce(fs, conv, images).Some?
    ensures Carried(fs, conv, images, k).Some?
  {
    ReduceFromCarried(fs, conv, images);
    if Carried(fs, conv, images, k).None? {
      CarriedFailurePropagates(fs, conv, images, k, 1);
    }
  }

  /** Once slot j (j >= 1) is unfilled, so is every slot from 1 to j, and the whole fold fails. */
  lemma {:induction false} FailureReachesFront<I, S>(fs: PairStitch<I, S>, conv: S -> I, images: seq<I>, j: nat)
    requires 1 <= j < |images| && Carried(fs, conv, images, j).None?
    ensures forall k :: 1 <= k <= j ==> Carried(fs, conv, images, k).None?
    ensures Reduce(fs, conv, images).None?
  {
    forall k | 1 <= k <= j ensures Carried(fs, conv, images, k).None? {
      CarriedFailurePropagates(fs, conv, images, j, k);
    }
    ReduceFromCarried(fs, conv, images);
  }

  /** One step of the reduction: slot m-2 receives the stitch of image m-2 with slot m-1, converted. */
  lemma {:induction false} CarriedStep<I, S>(fs: PairStitch<I, S>, conv: S -> I, images: seq<I>, m: nat)
    requires 2 <= m <= |images| && Carried(fs, conv, images, m - 1).Some?
    ensures Carried(fs, conv, images, m - 2) == match fs(images[m - 2], Carried(fs, conv, images, m - 1).value)
                                                case None => None
                                                case Some(st) => Some(conv(st))
  {
  }

  /** Once slot j is filled, every slot right of it is filled too. */
  lemma {:induction false} FilledRightOf<I, S>(fs: PairStitch<I, S>, conv: S -> I, images: seq<I>, j: nat)
    requires j < |images| && Carried(fs, conv, images, j).Some?
    ensures forall k :: j <= k < |images| ==> Carried(fs, conv, images, k).Some?
  {
    forall k | j <= k < |images| ensures Carried(fs, conv, images, k).Some? {
      if Carried(fs, conv, images, k).None? {
        CarriedFailurePropagates(fs, conv, images, k, j);
      }
    }
  }

  /**
   * The working list once the reduction has reached slot lo: slots lo to n-2 are overwritten,
   * right to left, with what the reduction carried into them (a slot it could not fill keeps
   * its image); every other slot keeps its original image.
   */
  ghost function Staged<I, S>(fs: PairStitch<I, S>, conv: S -> I, images: seq<I>, original: seq<I>, lo: nat): (s: seq<I>)
    requires |images| <= |original|
    ensures |s| == |original|
    decreases |images| - lo
  {
    if lo + 1 >= |images| then original
    else
      Staged(fs, conv, images, original, lo + 1)[lo := match Carried(fs, conv, images, lo)
                                                       case None => original[lo]
                                                       case Some(carried) => carried]
  }

  /** Slot k of the working list: what the reduction carried into it if k lies in lo..n-2 and was filled, else the original image. */
  lemma {:induction false} StagedAt<I, S>(fs: PairStitch<I, S>, conv: S -> I, images: seq<I>, original: seq<I>, lo: nat, k: nat)
    requires |images| <= |original| && k < |original|
    ensures Staged(fs, conv, images, original, lo)[k]
         == if lo <= k < |images| - 1 && Carried(fs, conv, images, k).Some? then Carried(fs, conv, images, k).value
            else original[k]
    decreases |images| - lo
  {
    if lo + 1 < |images| {
      StagedAt(fs, conv, images, original, lo + 1, k);
    }
  }

  /** Filling slot lo - 1 overwrites exactly that slot of the working list. */
  lemma {:induction false} StagedStep<I, S>(fs: PairStitch<I, S>, conv: S -> I, images: seq<I>, original: seq<I>, lo: nat)
    requires |images| <= |original| && 1 <= lo < |images| && Carried(fs, conv, images, lo - 1).Some?
    ensures Staged(fs, conv, images, original, lo - 1)
         == Staged(fs, conv, images, original, lo)[lo - 1 := Carried(fs, conv, images, lo - 1).value]
  {
  }

  /**
   * The loop of recurse_stitch over a shrinking cursor `m`: stitch slots m-2 and m-1, overwrite
   * slot m-2 with the converted composite and continue with m-1, until two live slots remain or
   * a pair fails.
   */
  method StitchFromRight<I, S>(fs: PairStitch<I, S>, conv: S -> I, imageList: array<I>, n: nat)
    returns (m: nat, failed: bool, ghost calls: nat)
    requires 2 <= n <= imageList.Length
    modifies imageList
    ensures 2 <= m <= n && (failed || m == 2)
    ensures Carried(fs, conv, old(imageList[..n]), m - 1).Some?
    ensures imageList[..] == Staged(fs, conv, old(imageList[..n]), old(imageList[..]), m - 1)
    ensures failed ==> m >= 3 && Carried(fs, conv, old(imageList[..n]), m - 2).None?
    ensures calls == n - m + (if failed then 1 else 0)
  {
    ghost var images := imageList[..n];
    ghost var original := imageList[..];
    m, failed, calls := n, false, 0;
    while m > 2 && !failed
      invariant 2 <= m <= n && (failed ==> m >= 3)
      invariant Carried(fs, conv, images, m - 1).Some?
      invariant imageList[..] == Staged(fs, conv, images, original, m - 1)
      invariant failed ==> Carried(fs, conv, images, m - 2).None?
      invariant calls == n - m + (if failed then 1 else 0)
      decreases m, if failed then 0 else 1
    {
      assert imageList[m - 1] == Carried(fs, conv, images, m - 1).value by {
        assert imageList[m - 1] == imageList[..][m - 1];
        StagedAt(fs, conv, images, original, m - 1, m - 1);
      }
      assert imageList[m - 2] == images[m - 2] by {
        assert imageList[m - 2] == imageList[..][m - 2];
        StagedAt(fs, conv, images, original, m - 1, m - 2);
      }
      var step := fs(imageList[m - 2], imageList[m - 1]);
      calls := calls + 1;
      CarriedStep(fs, conv, images, m);
      if step.None? {
        failed := true;
      } else {
        var composite := conv(step.value);
        assert Carried(fs, conv, images, m - 2) == Some(composite);
        StagedStep(fs, conv, images, original, m - 1);
        imageList[m - 2] := composite;
        m := m - 1;
      }
    }
  }

  /**
   * recurse_stitch over the caller's list: the loop above, then the stitch of slots 0 and 1 is
   * the result unless a pair already failed. `attempts` counts the pairwise stitches made.
   */
  method RecurseStitch<I, S>(fs: PairStitch<I, S>, conv: S -> I, imageList: array<I>, n: nat)
    returns (r: Option<S>, ghost attempts: nat)
    requires n <= imageList.Length
    modifies imageList
    ensures n < 2 ==> r.None? && attempts == 0
    ensures n >= 2 ==> r == Reduce(fs, conv, old(imageList[..n]))
    ensures forall k :: 0 <= k < imageList.Length ==>
              imageList[k] == if 1 <= k < n - 1 && Carried(fs, conv, old(imageList[..n]), k).Some?
                              then Carried(fs, conv, old(imageList[..n]), k).value
                              else old(imageList[k])
    ensures n >= 2 ==> 1 <= attempts <= n - 1
    ensures n >= 2 && r.Some? ==> attempts == n - 1
    ensures forall k :: n - attempts <= k < n ==> Carried(fs, conv, old(imageList[..n]), k).Some?
    ensures n >= 2 && attempts < n - 1 ==> Carried(fs, conv, old(imageList[..n]), n - attempts - 1).None?
  {
    if n < 2 {
      return None, 0;
    }
    ghost var images := imageList[..n];
    ghost var original := imageList[..];
    var m, failed, calls := StitchFromRight(fs, conv, imageList, n);
    FilledRightOf(fs, conv, images, m - 1);
    forall k | 0 <= k < imageList.Length
      ensures imageList[k] == if 1 <= k < n - 1 && Carried(fs, conv, images, k).Some?
                              then Carried(fs, conv, images, k).value else original[k]
    {
      assert imageList[k] == imageList[..][k];
      StagedAt(fs, conv, images, original, m - 1, k);
      if failed && 1 <= k < m - 1 {
        FailureReachesFront(fs, conv, images, m - 2);
      }
    }
    if failed {
      FailureReachesFront(fs, conv, images, m - 2);
      r, attempts := None, calls;
    } else {
      r := fs(imageList[0], imageList[1]);
      attempts := calls + 1;
      ReduceFromCarried(fs, conv, images);
    }
  }
}
