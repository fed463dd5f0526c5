/**
 * What the two benchmark endpoints share: the series of dataset sizes their loop
 * walks through, the two timed algorithms, the bounded random draw and the
 * decimal text of a record's index in its generated label.
 */
module Benchmark {

  /** Size step of the benchmark loop. */
  const Step := 1000

  datatype Algorithm = SelectionSortRun | MergeSortRun

  /**
   * The sizes the loop `for (size = from; size <= max; size += 1000)` visits.
   */
  function SizesFrom(from: int, max: int): seq<int>
    decreases max - from
  {
    if from > max then [] else [from] + SizesFrom(from + Step, max)
  }

  /** The `DatasetSizes` series of one benchmark request. */
  function DatasetSizes(maxDatasetSize: int): seq<int> {
    SizesFrom(0, maxDatasetSize)
  }

  /** One more round of the benchmark loop: `size` joins the sizes already visited. */
  lemma SizesStep(visited: seq<int>, size: int, max: int)
    requires visited + SizesFrom(size, max) == DatasetSizes(max)
    requires size <= max
    ensures (visited + [size]) + SizesFrom(size + Step, max) == DatasetSizes(max)
  {
    assert SizesFrom(size, max) == [size] + SizesFrom(size + Step, max);
    assert (visited + [size]) + SizesFrom(size + Step, max) == visited + ([size] + SizesFrom(size + Step, max));
  }

  /** When the benchmark loop stops, it has visited every size. */
  lemma SizesDone(visited: seq<int>, size: int, max: int)
    requires visited + SizesFrom(size, max) == DatasetSizes(max)
    requires size > max
    ensures visited == DatasetSizes(max)
  {
    assert visited + [] == visited;
  }

  /** The sizes from `from` climb by 1000 and stop at the last one not above `max`. */
  lemma {:induction false} SizesFromShape(from: int, max: int)
    ensures |SizesFrom(from, max)| == if from > max then 0 else (max - from) / Step + 1
    ensures forall i :: 0 <= i < |SizesFrom(from, max)| ==> SizesFrom(from, max)[i] == from + Step * i
    decreases max - from
  {
    if from <= max {
      SizesFromShape(from + Step, max);
      var rest := SizesFrom(from + Step, max);
      forall i | 0 < i < |SizesFrom(from, max)|
        ensures SizesFrom(from, max)[i] == from + Step * i
      {
        assert SizesFrom(from, max)[i] == rest[i - 1];
      }
    }
  }

  /**
   * For a non-negative maximum the sizes are 0, 1000, ..., 1000 * (max / 1000);
   * a negative maximum gives no size at all.
   */
  lemma DatasetSizesShape(maxDatasetSize: int)
    ensures maxDatasetSize < 0 ==> DatasetSizes(maxDatasetSize) == []
    ensures maxDatasetSize >= 0 ==> |DatasetSizes(maxDatasetSize)| == maxDatasetSize / Step + 1
    ensures forall i :: 0 <= i < |DatasetSizes(maxDatasetSize)| ==> DatasetSizes(maxDatasetSize)[i] == Step * i
    ensures forall i :: 0 <= i < |DatasetSizes(maxDatasetSize)| ==> DatasetSizes(maxDatasetSize)[i] <= maxDatasetSize
  {
    SizesFromShape(0, maxDatasetSize);
  }

  /** The default request, `maxDatasetSize = 5000`, measures six sizes. */
  lemma DefaultDatasetSizes()
    ensures DatasetSizes(5000) == [0, 1000, 2000, 3000, 4000, 5000]
  {
    DatasetSizesShape(5000);
  }

  /**
   * `random.Next(minValue, maxValue)`: a value of [minValue, maxValue), or minValue
   * when the two bounds are equal. The source of randomness is the `sample`
   * the caller supplies.
   */
  function Next(minValue: int, maxValue: int, sample: nat): (r: int)
    requires minValue <= maxValue
    ensures minValue <= r
    ensures r < maxValue || r == minValue == maxValue
  {
    if minValue == maxValue then minValue else minValue + sample % (maxValue - minValue)
  }

  /** The character of the decimal digit `d`. */
  function Digit(d: nat): (c: char)
    requires d < 10
    ensures '0' <= c <= '9'
    ensures DigitValue(c) == d
  {
    (d + '0' as int) as char
  }

  /** The number a decimal digit character stands for. */
  function DigitValue(c: char): int {
    c as int - '0' as int
  }

  /** The number a text of decimal digits denotes, most significant digit first. */
  ghost function ValueOf(s: string): int {
    if s == [] then 0 else 10 * ValueOf(s[..|s| - 1]) + DigitValue(s[|s| - 1])
  }

  /**
   * `i.ToString()` for a non-negative `i`: its decimal digits, with a leading
   * zero only for zero itself.
   */
  function DecimalString(n: nat): (r: string)
    ensures |r| >= 1
    ensures (|r| == 1) == (n < 10)
    ensures forall c :: c in r ==> '0' <= c <= '9'
    ensures r[0] == '0' <==> n == 0
  {
    if n < 10 then [Digit(n)] else DecimalString(n / 10) + [Digit(n % 10)]
  }

  /** The decimal text of `n` denotes `n`. */
  lemma {:induction false} DecimalStringValue(n: nat)
    ensures ValueOf(DecimalString(n)) == n
  {
    var s := DecimalString(n);
    if n < 10 {
      assert s[..0] == [];
    } else {
      assert s[..|s| - 1] == DecimalString(n / 10);
      DecimalStringValue(n / 10);
    }
  }

  /** Distinct numbers have distinct decimal texts. */
  lemma DecimalStringInjective(a: nat, b: nat)
    requires DecimalString(a) == DecimalString(b)
    ensures a == b
  {
    DecimalStringValue(a);
    DecimalStringValue(b);
  }

  /** A label `prefix + i` names the index `i` it was built from. */
  lemma LabelInjective(prefix: string, a: nat, b: nat)
    requires prefix + DecimalString(a) == prefix + DecimalString(b)
    ensures a == b
  {
    assert (prefix + DecimalString(a))[|prefix|..] == DecimalString(a);
    assert (prefix + DecimalString(b))[|prefix|..] == DecimalString(b);
    DecimalStringInjective(a, b);
  }
}
