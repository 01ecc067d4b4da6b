/**
  The pure helpers of kmeans_pp.py: the distance between two vectors, the
  positive-integer test for command-line numbers, and the checks the
  `__main__` block makes on its arguments before it starts clustering.
 */
module KMeansPP {
  import opened Vectors
  import opened Results

  /** The exceptions the helpers can end in. `InvalidInput` stands for
      `assert_valid_input` printing "Invalid Input!" and exiting. */
  datatype PyError = AssertionError | IndexError | InvalidInput

  /** Python's `sum` over a list of floats: left to right, from 0. */
  function Sum(xs: seq<real>): real
    decreases |xs|
  {
    if |xs| == 0 then 0.0 else Sum(xs[..|xs| - 1]) + xs[|xs| - 1]
  }

  /** The list `[(u1[i] - u2[i]) ** 2 for i in range(len(u1))]`. */
  function SquaredDifferences(u1: seq<real>, u2: seq<real>): seq<real>
    requires |u1| == |u2|
  {
    seq(|u1|, i requires 0 <= i < |u1| => Sq(u1[i] - u2[i]))
  }

  /** The summed list adds the same terms, in the same order, as the
      squared distance of the engine. */
  lemma {:induction false} SumOfSquaredDifferences(u1: seq<real>, u2: seq<real>)
    requires |u1| == |u2|
    ensures Sum(SquaredDifferences(u1, u2)) == SquaredDistance(u1, u2)
    decreases |u1|
  {
    if |u1| > 0 {
      var n := |u1| - 1;
      SumOfSquaredDifferences(u1[..n], u2[..n]);
      assert SquaredDifferences(u1, u2)[..n] == SquaredDifferences(u1[..n], u2[..n]);
    }
  }

  /** `calc_distance`: the assertion fails on vectors of different lengths;
      otherwise the result is the squared Euclidean distance. */
  function CalcDistance(u1: seq<real>, u2: seq<real>): (r: Result<real, PyError>)
    ensures r.Failure? <==> |u1| != |u2|
    ensures r.Failure? ==> r.error == AssertionError
    ensures r.Success? ==> r.value == SquaredDistance(u1, u2)
  {
    if |u1| != |u2| then Failure(AssertionError)
    else
      SumOfSquaredDifferences(u1, u2);
      Success(Sum(SquaredDifferences(u1, u2)))
  }

  /** The distance is never negative, does not depend on the order of its
      arguments, and is zero exactly for identical vectors. */
  lemma CalcDistanceIsMetric(u1: seq<real>, u2: seq<real>)
    requires |u1| == |u2|
    ensures CalcDistance(u1, u2).Success? && CalcDistance(u1, u2).value >= 0.0
    ensures CalcDistance(u1, u2) == CalcDistance(u2, u1)
    ensures CalcDistance(u1, u2).value == 0.0 <==> u1 == u2
  {
    SquaredDistanceSymmetric(u1, u2);
    SquaredDistanceZeroIff(u1, u2);
  }

  predicate IsDigit(c: char) {
    '0' <= c <= '9'
  }

  /** `str.isdecimal`, restricted to the digits 0 to 9: a non-empty string
      of digits. */
  predicate IsDecimal(s: string) {
    |s| > 0 && forall i :: 0 <= i < |s| ==> IsDigit(s[i])
  }

  /** `int(s)` on a string of digits. */
  function DecimalValue(s: string): (n: nat)
    requires forall i :: 0 <= i < |s| ==> IsDigit(s[i])
    decreases |s|
  {
    if |s| == 0 then 0
    else
      assert IsDigit(s[|s| - 1]);
      DecimalValue(s[..|s| - 1]) * 10 + (s[|s| - 1] as int - '0' as int)
  }

  /** A string of digits has a positive value exactly when one of its digits
      is not zero; leading zeros do not matter. */
  lemma {:induction false} DecimalValuePositive(s: string)
    requires forall i :: 0 <= i < |s| ==> IsDigit(s[i])
    ensures DecimalValue(s) > 0 <==> exists i :: 0 <= i < |s| && s[i] != '0'
    decreases |s|
  {
    if |s| > 0 {
      var n := |s| - 1;
      DecimalValuePositive(s[..n]);
      if DecimalValue(s) > 0 {
        if DecimalValue(s[..n]) > 0 {
          var i :| 0 <= i < n && s[..n][i] != '0';
          assert s[i] != '0';
        } else {
          assert s[n] != '0';
        }
      } else {
        forall i | 0 <= i < |s|
          ensures s[i] == '0'
        {
          if i < n {
            assert s[..n][i] == s[i];
          }
        }
      }
    }
  }

  /** `check_positive_numstr`: a string that is not decimal gives `(0,
      False)`; a decimal string gives its value and whether that value is
      positive, which it is exactly when some digit is not zero. */
  function CheckPositiveNumstr(s: string): (r: (int, bool))
    ensures !IsDecimal(s) ==> r == (0, false)
    ensures IsDecimal(s) ==> r.0 == DecimalValue(s)
    ensures r.1 <==> IsDecimal(s) && exists i :: 0 <= i < |s| && s[i] != '0'
    ensures r.1 ==> r.0 > 0
  {
    if !IsDecimal(s) then (0, false)
    else
      var x := DecimalValue(s);
      DecimalValuePositive(s);
      (x, x > 0)
  }

  /** `str(n)`: the decimal digits of `n`, without leading zeros. */
  function Digits(n: nat): (s: string)
    ensures IsDecimal(s)
    decreases n
  {
    var d := ['0' + (n % 10) as char];
    if n < 10 then d else Digits(n / 10) + d
  }

  /** `int(str(n)) == n`: reading back the digits of a number gives the
      number. */
  lemma {:induction false} DigitsRoundTrip(n: nat)
    ensures DecimalValue(Digits(n)) == n
    decreases n
  {
    var s := Digits(n);
    if n >= 10 {
      DigitsRoundTrip(n / 10);
      assert s[..|s| - 1] == Digits(n / 10);
    }
  }

  /** A number written out in digits passes the check exactly when it is
      positive, and keeps its value. */
  lemma CheckPositiveNumstrOfDigits(n: nat)
    ensures CheckPositiveNumstr(Digits(n)) == (n, n > 0)
  {
    DigitsRoundTrip(n);
  }

  /** `s.endswith(suffix)`. */
  predicate EndsWith(s: string, suffix: string) {
    |suffix| <= |s| && s[|s| - |suffix|..] == suffix
  }

  /** `f.endswith((".txt", ".csv"))`. */
  predicate HasDataSuffix(f: string) {
    EndsWith(f, ".txt") || EndsWith(f, ".csv")
  }

  /** What `__main__` hands to `main`. The tolerance is passed on as the
      string it was given. */
  datatype Arguments = Arguments(k: int, maxIter: int, eps: string, infile1: string, infile2: string)

  /** Reading `eps`, `infile1` and `infile2` from `argv[i]`, `argv[i + 1]`
      and `argv[i + 2]`, then checking both file names. */
  function Operands(argv: seq<string>, i: nat, k: int, maxIter: int): (r: Result<Arguments, PyError>)
    ensures r.Failure? ==> r.error == (if i + 2 < |argv| then InvalidInput else IndexError)
    ensures r.Success? <==> i + 2 < |argv| && HasDataSuffix(argv[i + 1]) && HasDataSuffix(argv[i + 2])
    ensures r.Success? ==> r.value == Arguments(k, maxIter, argv[i], argv[i + 1], argv[i + 2])
  {
    if |argv| <= i + 2 then Failure(IndexError)
    else
      var eps, infile1, infile2 := argv[i], argv[i + 1], argv[i + 2];
      if !(HasDataSuffix(infile1) && HasDataSuffix(infile2)) then Failure(InvalidInput)
      else Success(Arguments(k, maxIter, eps, infile1, infile2))
  }

  /** The checks of `__main__`, for an argument count `short` of the
      command line without `max_iter` (the program name included): only
      `short` or `short + 1` entries are accepted, `K` must be a positive
      number, and with `short + 1` entries so must `argv[2]`, which then
      replaces the default of 300 and moves the remaining arguments one
      place on. */
  function MainArguments(argv: seq<string>, short: nat): (r: Result<Arguments, PyError>)
    requires short >= 2
    ensures r.Success? ==> |argv| == short || |argv| == short + 1
    ensures r.Success? ==> r.value.k > 0 && r.value.maxIter > 0
  {
    var numArgs := |argv|;
    if !(numArgs == short || numArgs == short + 1) then Failure(InvalidInput)
    else
      var (k, valid) := CheckPositiveNumstr(argv[1]);
      if !valid then Failure(InvalidInput)
      else if numArgs == short + 1 then
        var (maxIter, valid) := CheckPositiveNumstr(argv[2]);
        if !valid then Failure(InvalidInput) else Operands(argv, 3, k, maxIter)
      else
        Operands(argv, 2, k, 300)
  }

  /** `__main__` as written: it accepts 3 + 1 or 4 + 1 entries, counting
      `K`, the optional `max_iter` and the two files but not `eps`. */
  function MainArgsAsWritten(argv: seq<string>): (r: Result<Arguments, PyError>)
    ensures r.Failure?
    ensures r.error == IndexError <==>
      && (|argv| == 4 || |argv| == 5)
      && CheckPositiveNumstr(argv[1]).1
      && (|argv| == 5 ==> CheckPositiveNumstr(argv[2]).1)
  {
    MainArguments(argv, 3 + 1)
  }

  /** Both command lines of the usage `K [max_iter] eps infile1 infile2`
      are refused as written: without `max_iter` the five entries make
      `eps` be read as `max_iter`, and with it the six entries are too
      many. Once `eps` is counted both are accepted. */
  lemma UsageRejectedAsWritten()
    ensures MainArgsAsWritten(["kmeans_pp.py", "3", "0.01", "in_1.txt", "in_2.txt"]) == Failure(InvalidInput)
    ensures MainArgsAsWritten(["kmeans_pp.py", "3", "100", "0.01", "in_1.txt", "in_2.txt"]) == Failure(InvalidInput)
    ensures MainArgs(["kmeans_pp.py", "3", "0.01", "in_1.txt", "in_2.txt"])
      == Success(Arguments(3, 300, "0.01", "in_1.txt", "in_2.txt"))
    ensures MainArgs(["kmeans_pp.py", "3", "100", "0.01", "in_1.txt", "in_2.txt"])
      == Success(Arguments(3, 100, "0.01", "in_1.txt", "in_2.txt"))
  {
    assert CheckPositiveNumstr("3") == (3, true) by {
      assert "3" == Digits(3);
      CheckPositiveNumstrOfDigits(3);
    }
    assert CheckPositiveNumstr("100") == (100, true) by {
      assert "100" == Digits(100);
      CheckPositiveNumstrOfDigits(100);
    }
    assert !IsDecimal("0.01") by {
      assert !IsDigit("0.01"[1]);
    }
    assert EndsWith("in_1.txt", ".txt") && EndsWith("in_2.txt", ".txt");
  }

  /** With four entries, which the count check lets through, the reads run
      off the end of `argv`. */
  lemma ShortCommandLineIndexError()
    ensures MainArgsAsWritten(["kmeans_pp.py", "3", "0.01", "in_1.txt"]) == Failure(IndexError)
  {
    assert CheckPositiveNumstr("3") == (3, true) by {
      assert "3" == Digits(3);
      CheckPositiveNumstrOfDigits(3);
    }
  }

  /** `__main__` with `eps` counted: 4 + 1 or 5 + 1 entries. */
  function MainArgs(argv: seq<string>): (r: Result<Arguments, PyError>)
    ensures r.Success? <==>
      && (|argv| == 5 || |argv| == 6)
      && CheckPositiveNumstr(argv[1]).1
      && (|argv| == 6 ==> CheckPositiveNumstr(argv[2]).1)
      && HasDataSuffix(argv[|argv| - 2]) && HasDataSuffix(argv[|argv| - 1])
    ensures r.Failure? ==> r.error == InvalidInput
    ensures r.Success? ==>
      && r.value.k == DecimalValue(argv[1]) > 0
      && r.value.maxIter == (if |argv| == 5 then 300 else DecimalValue(argv[2]))
      && r.value.maxIter > 0
      && r.value.eps == argv[|argv| - 3]
      && r.value.infile1 == argv[|argv| - 2]
      && r.value.infile2 == argv[|argv| - 1]
  {
    MainArguments(argv, 4 + 1)
  }
}
