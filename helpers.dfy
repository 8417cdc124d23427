/** General helpers: `batched`, membership in the seeding-handling setting
    values and the minimum Python version check. */
module Helpers {
  import opened Common
  import DownloadQueue

  // ---------------------------------------------------------------------
  // batched
  // ---------------------------------------------------------------------

  /** The concatenation of a sequence of batches. */
  function Flatten<T>(batches: seq<seq<T>>): seq<T>
    decreases |batches|
  {
    if |batches| == 0 then [] else batches[0] + Flatten(batches[1..])
  }

  /** The slices `l[k*n : k*n+n]` for a positive step `n`. */
  function Batches<T>(l: seq<T>, n: nat): (r: seq<seq<T>>)
    requires n > 0
    ensures |l| == 0 <==> |r| == 0
    decreases |l|
  {
    if |l| == 0 then []
    else if |l| <= n then [l]
    else [l[..n]] + Batches(l[n..], n)
  }

  /** `batched(l, n)`: the generator over `range(0, len(l), n)`; a step of 0 is
      a `ValueError` and a negative step yields nothing. */
  function Batched<T>(l: seq<T>, n: int): (r: Result<seq<seq<T>>>)
    ensures r.Err? <==> n == 0
    ensures r.Err? ==> r.error == ValueError
    ensures n < 0 ==> r == Ok([])
  {
    if n == 0 then Err(ValueError)
    else if n < 0 then Ok([])
    else Ok(Batches(l, n))
  }

  /** The batches put back together are the input. */
  lemma {:induction false} BatchesFlatten<T>(l: seq<T>, n: nat)
    requires n > 0
    ensures Flatten(Batches(l, n)) == l
    decreases |l|
  {
    if |l| > n {
      BatchesFlatten(l[n..], n);
      assert l[..n] + l[n..] == l;
    } else if |l| > 0 {
      assert Flatten([l]) == l + Flatten([]);
    }
  }

  lemma MulMono(a: int, b: int, n: nat)
    requires a <= b
    ensures a * n <= b * n
  {
  }

  /** Euclidean division has one quotient and remainder. */
  lemma DivUnique(x: int, n: nat, a: int, b: int)
    requires n > 0 && 0 <= b < n && x == a * n + b
    ensures x / n == a
  {
    var q := x / n;
    var r := x % n;
    assert x == q * n + r;
    assert (q - a) * n == b - r;
    if q > a { MulMono(1, q - a, n); }
    if q < a { MulMono(1, a - q, n); }
  }

  /** Adding the divisor adds one to the quotient. */
  lemma DivStep(m: nat, n: nat)
    requires n > 0
    ensures (m + n) / n == m / n + 1
  {
    DivUnique(m + n, n, m / n + 1, m % n);
  }

  /** A number between `n` and `2n - 1` holds `n` once. */
  lemma DivOne(m: nat, n: nat)
    requires n > 0 && n <= m < 2 * n
    ensures m / n == 1
  {
    DivUnique(m, n, 1, m - n);
  }

  /** There are ceil(len/n) batches. */
  lemma {:induction false} BatchesCount<T>(l: seq<T>, n: nat)
    requires n > 0
    ensures |Batches(l, n)| == (|l| + n - 1) / n
    decreases |l|
  {
    if |l| > n {
      BatchesCount(l[n..], n);
      DivStep(|l[n..]| + n - 1, n);
    } else if |l| > 0 {
      DivOne(|l| + n - 1, n);
    } else {
      assert (n - 1) / n == 0;
    }
  }

  /** All batches have length `n` except the last, which has between 1 and
      `n` elements. */
  lemma {:induction false} BatchesSizes<T>(l: seq<T>, n: nat)
    requires n > 0
    ensures forall k | 0 <= k < |Batches(l, n)| - 1 :: |Batches(l, n)[k]| == n
    ensures |l| > 0 ==> 0 < |Batches(l, n)[|Batches(l, n)| - 1]| <= n
    decreases |l|
  {
    var b := Batches(l, n);
    if |l| > n {
      var rest := Batches(l[n..], n);
      BatchesSizes(l[n..], n);
      assert b == [l[..n]] + rest;
      forall k | 0 <= k < |b| - 1 ensures |b[k]| == n {
        if k > 0 {
          assert b[k] == rest[k - 1];
        }
      }
      assert b[|b| - 1] == rest[|rest| - 1];
    }
  }

  // ---------------------------------------------------------------------
  // SeedingHandling
  // ---------------------------------------------------------------------

  /** The setting value of each seeding handling. */
  function SeedingHandlingValue(h: DownloadQueue.SeedingHandling): string {
    match h
    case Complete => "complete"
    case Copy => "copy"
  }

  /** `value in SeedingHandling()`. */
  predicate SeedingHandlingContains(value: string) {
    value == "complete" || value == "copy"
  }

  /** Membership holds exactly for the values of the two handlings, and
      the two values differ. */
  lemma SeedingHandlingMembership(value: string)
    ensures SeedingHandlingContains(value) <==> exists h :: SeedingHandlingValue(h) == value
    ensures SeedingHandlingValue(DownloadQueue.Complete) != SeedingHandlingValue(DownloadQueue.Copy)
  {
    if value == "complete" {
      assert SeedingHandlingValue(DownloadQueue.Complete) == value;
    } else if value == "copy" {
      assert SeedingHandlingValue(DownloadQueue.Copy) == value;
    }
  }

  // ---------------------------------------------------------------------
  // check_python_version
  // ---------------------------------------------------------------------

  /** The version requirement: Python 3.8 or later within major version 3. */
  predicate SupportedPython(major: int, minor: int) {
    major == 3 && minor >= 8
  }

  /** `check_python_version` as written: the failure branch adds the integer
      version parts to strings before logging, which raises `TypeError`. */
  function CheckPythonVersionAsWritten(major: int, minor: int, micro: int): (r: Result<bool>)
    ensures r.Ok? <==> SupportedPython(major, minor)
    ensures r.Ok? ==> r.value
  {
    if !SupportedPython(major, minor) then Err(TypeError) else Ok(true)
  }

  /** An unsupported version makes the as-written check raise instead of
      returning False: Python 3.7.17 is one (Python 2 cannot even parse the
      module's annotations). */
  lemma OldPythonRaises()
    ensures CheckPythonVersionAsWritten(3, 7, 17) == Err(TypeError)
  {
  }

  /** `check_python_version` with the log message built from the text of
      the version parts: it reports whether the version is supported. */
  function CheckPythonVersion(major: int, minor: int, micro: int): (r: bool)
    ensures r <==> major == 3 && minor >= 8
  {
    SupportedPython(major, minor)
  }

  /** The corrected check and the as-written check agree on every supported
      version, and the corrected one answers False where the other raises. */
  lemma CheckPythonVersionAgrees(major: int, minor: int, micro: int)
    ensures CheckPythonVersionAsWritten(major, minor, micro).Ok? ==>
      CheckPythonVersionAsWritten(major, minor, micro).value == CheckPythonVersion(major, minor, micro)
    ensures CheckPythonVersionAsWritten(major, minor, micro).Err? ==> !CheckPythonVersion(major, minor, micro)
  {
  }
}
