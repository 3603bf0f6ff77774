/** The two test playlist generators `generate_asset_file(file_path, n)`:
    the one of test_mod.py writes two clips per step, the one of test.py one
    line per step with a bucket clip on every tenth. Each returns the writes
    in order; the file itself is left out. */
module AssetLists {

  /** A playlist line naming `url`, as the scripts write it. */
  function ClipLine(url: string): (l: string)
    ensures |l| == |url| + 8 && l[..6] == "file '" && l[6..|l| - 2] == url && l[|l| - 2..] == "'\n"
  {
    "file '" + url + "'\n"
  }

  /** The first clip written per step by test_mod.py. */
  const SecondCropLine: string :=
    ClipLine("https://tvunativeoverlay.s3.ap-south-1.amazonaws.com/test_video/rsystems2crop.mp4")

  /** The second clip written per step by test_mod.py. */
  const FirstCropLine: string :=
    ClipLine("https://tvunativeoverlay.s3.ap-south-1.amazonaws.com/test_video/rsystems1crop.mp4")

  /** The address of the bucket clip test.py writes on every tenth line. */
  const BucketClip: string := BucketHost + "/example_video.mp4"

  const BucketHost: string := "https://" + "logo-detection-bucket" + ".s3.amazonaws.com"

  /** The local blank clip test.py writes on every other line. */
  const BlankClip: string := "blank_video/text_video.mp4"

  const BucketLine: string := ClipLine(BucketClip)

  const BlankLine: string := ClipLine(BlankClip)

  /** The number of steps of `range(1, n + 1)`. */
  function Steps(n: int): nat {
    if n <= 0 then 0 else n
  }

  /** Python's `range(lo, hi)`. */
  function Range(lo: int, hi: int): seq<int>
    decreases hi - lo
  {
    if lo >= hi then [] else [lo] + Range(lo + 1, hi)
  }

  /** `range(lo, hi)` counts up from `lo` by one and stops before `hi`. */
  lemma {:induction false} RangeShape(lo: int, hi: int)
    ensures |Range(lo, hi)| == if lo < hi then hi - lo else 0
    ensures forall k :: 0 <= k < |Range(lo, hi)| ==> Range(lo, hi)[k] == lo + k
    decreases hi - lo
  {
    if lo < hi {
      RangeShape(lo + 1, hi);
    }
  }

  /** The values `range(1, n + 1)` the loops go through. */
  function StepValues(n: int): seq<int> {
    Range(1, n + 1)
  }

  /** The loops take one step per value of `range(1, n + 1)`, the k-th
      value being k + 1, and none for n <= 0. */
  lemma StepsCountsRange(n: int)
    ensures |StepValues(n)| == Steps(n)
    ensures forall k :: 0 <= k < Steps(n) ==> StepValues(n)[k] == k + 1
  {
    RangeShape(1, n + 1);
  }

  /** test_mod.py's `generate_asset_file`: every step writes the
      rsystems2crop line followed by the rsystems1crop line. */
  method CropPairs(n: int) returns (writes: seq<string>)
    ensures |writes| == 2 * Steps(n)
    ensures forall k :: 0 <= k < Steps(n) ==>
              writes[2 * k] == SecondCropLine && writes[2 * k + 1] == FirstCropLine
  {
    writes := [];
    for i := 1 to Steps(n) + 1
      invariant |writes| == 2 * (i - 1)
      invariant forall k :: 0 <= k < i - 1 ==>
                  writes[2 * k] == SecondCropLine && writes[2 * k + 1] == FirstCropLine
    {
      writes := writes + [SecondCropLine];
      writes := writes + [FirstCropLine];
    }
  }

  /** The line test.py writes at step `i` (counted from 1). */
  function TenthLine(i: int): string {
    if i % 10 == 0 then BucketLine else BlankLine
  }

  /** The lines of test.py's playlist for steps 1 to `n`. */
  function TenthLines(n: nat): (ls: seq<string>)
    ensures |ls| == n
    ensures forall k :: 0 <= k < n ==> ls[k] == TenthLine(k + 1)
  {
    if n == 0 then [] else TenthLines(n - 1) + [TenthLine(n)]
  }

  /** test.py's `generate_asset_file`. */
  method EveryTenth(n: int) returns (writes: seq<string>)
    ensures writes == TenthLines(Steps(n))
  {
    writes := [];
    for i := 1 to Steps(n) + 1
      invariant writes == TenthLines(i - 1)
    {
      if i % 10 == 0 {
        writes := writes + [BucketLine];
      } else {
        writes := writes + [BlankLine];
      }
    }
  }

  /** A line naming an address without a newline ends in its one newline. */
  lemma ClipLineIsOneLine(url: string)
    requires '\n' !in url
    ensures var l := ClipLine(url); l[|l| - 1] == '\n' && '\n' !in l[..|l| - 1]
  {
    var l := ClipLine(url);
    assert l[..|l| - 1] == "file '" + url + "'";
  }

  /** Every write of test.py is one line, terminated by the newline. */
  lemma WritesAreLines(n: nat)
    ensures forall k :: 0 <= k < n ==>
              var l := TenthLines(n)[k]; l[|l| - 1] == '\n' && '\n' !in l[..|l| - 1]
  {
    assert '\n' !in "https://" && '\n' !in "logo-detection-bucket" && '\n' !in ".s3.amazonaws.com";
    assert '\n' !in "/example_video.mp4";
    assert '\n' !in BlankClip;
    ClipLineIsOneLine(BucketClip);
    ClipLineIsOneLine(BlankClip);
  }

  lemma BucketLineIsNotBlank()
    ensures BucketLine != BlankLine
  {
    assert BucketLine[6] == BucketClip[0] == 'h';
    assert BlankLine[6] == BlankClip[0] == 'b';
  }

  lemma TenthStep(n: nat)
    requires n > 0
    ensures n % 10 == 0 ==> n / 10 == (n - 1) / 10 + 1
    ensures n % 10 != 0 ==> n / 10 == (n - 1) / 10
  {
  }

  /** How many of `ls` are `l`. */
  function Occurrences(ls: seq<string>, l: string): nat {
    if ls == [] then 0 else Occurrences(ls[..|ls| - 1], l) + (if ls[|ls| - 1] == l then 1 else 0)
  }

  /** Exactly `n / 10` bucket lines, and all the rest blank. */
  lemma {:induction false} BucketLineCount(n: nat)
    ensures Occurrences(TenthLines(n), BucketLine) == n / 10
    ensures Occurrences(TenthLines(n), BlankLine) == n - n / 10
  {
    if n > 0 {
      BucketLineCount(n - 1);
      BucketLineIsNotBlank();
      TenthStep(n);
      var before := TenthLines(n - 1);
      assert TenthLines(n) == before + [TenthLine(n)];
      OccurrencesSnoc(before, TenthLine(n), BucketLine);
      OccurrencesSnoc(before, TenthLine(n), BlankLine);
      if n % 10 == 0 {
        assert TenthLine(n) == BucketLine;
        assert Occurrences(TenthLines(n), BucketLine) == Occurrences(before, BucketLine) + 1;
        assert Occurrences(TenthLines(n), BlankLine) == Occurrences(before, BlankLine);
        assert n - n / 10 == (n - 1) - (n - 1) / 10;
        assert Occurrences(TenthLines(n), BlankLine) == n - n / 10;
      } else {
        assert TenthLine(n) == BlankLine;
        assert Occurrences(TenthLines(n), BucketLine) == Occurrences(before, BucketLine);
        assert Occurrences(TenthLines(n), BlankLine) == Occurrences(before, BlankLine) + 1;
        assert n - n / 10 == (n - 1) - (n - 1) / 10 + 1;
        assert Occurrences(TenthLines(n), BlankLine) == n - n / 10;
      }
    } else {
      assert TenthLines(n) == [];
    }
  }

  /** Adding a line adds one occurrence of it and none of any other. */
  lemma OccurrencesSnoc(ls: seq<string>, x: string, l: string)
    ensures Occurrences(ls + [x], l) == Occurrences(ls, l) + (if x == l then 1 else 0)
  {
    assert (ls + [x])[..|ls + [x]| - 1] == ls;
  }
}
