/**
 Splitting the flat list of photo entries into rows of `NumberOfColumns`
 tiles: the `chunk(arr, len)` helper and the row layout built from it.
 */
module Grid {

  const NumberOfColumns := 8

  /** The number of entries in the static photo list. */
  const PhotoCount := 40

  function Min(a: int, b: int): (r: int) {
    if a <= b then a else b
  }

  /** JavaScript's slice of `s` from `start` up to (not including) `end`, for 0 <= start <= end: both ends are cut back to the length of `s`. */
  function Slice<T>(s: seq<T>, start: nat, end: int): (r: seq<T>)
    requires start <= end
    ensures |r| <= end - start
    ensures start < |s| ==> start + |r| == Min(end, |s|)
    ensures |s| <= start ==> r == []
    ensures forall k :: 0 <= k < |r| ==> start + k < |s| && r[k] == s[start + k]
  {
    s[Min(start, |s|)..Min(end, |s|)]
  }

  /** The whole of a list of rows, read row after row. */
  function Flatten<T>(rows: seq<seq<T>>): (r: seq<T>) {
    if rows == [] then [] else rows[0] + Flatten(rows[1..])
  }

  /** Every row holds between 1 and `len` entries, and every row but the last exactly `len`. */
  predicate WellChunked<T>(rows: seq<seq<T>>, len: int) {
    && (forall k :: 0 <= k < |rows| ==> 0 < |rows[k]| <= len)
    && (forall k :: 0 <= k < |rows| - 1 ==> |rows[k]| == len)
  }

  /** ⌈n / d⌉ for d > 0. */
  function CeilDiv(n: nat, d: int): (r: nat)
    requires d > 0
  {
    (n + d - 1) / d
  }

  /** The rows `chunk` produces: a first slice of `len` entries (or all that remain), then the rows of the rest. */
  function Rows<T>(s: seq<T>, len: int): (r: seq<seq<T>>)
    requires len > 0 || s == []
    ensures r == [] <==> s == []
    decreases |s|
  {
    if s == [] then []
    else if |s| <= len then [s]
    else [s[..len]] + Rows(s[len..], len)
  }

  /** The value of `i` after `k` iterations of `chunk`'s loop, which starts at 0 and adds `len` each time: k * len. */
  function IndexAfter(len: int, k: nat): (r: int)
    ensures r == k * len
  {
    if k == 0 then 0
    else
      MulSucc(k - 1, len);
      IndexAfter(len, k - 1) + len
  }

  /** `chunk(arr, len)`: walk `i` from 0 in steps of `len`, pushing `arr.slice(i, i + len)`, while `i < arr.length`. */
  method Chunk<T>(arr: seq<T>, len: int) returns (chunks: seq<seq<T>>)
    requires len > 0 || arr == []
    ensures chunks == Rows(arr, len)
    ensures Flatten(chunks) == arr
    ensures len > 0 ==> WellChunked(chunks, len) && |chunks| == CeilDiv(|arr|, len)
    ensures arr == [] <==> chunks == []
  {
    chunks := [];
    var i := 0;
    var n := |arr|;
    ghost var iterations: nat := 0;
    while i < n
      invariant 0 <= i
      invariant i == IndexAfter(len, iterations) && |chunks| == iterations
      invariant iterations > 0 ==> IndexAfter(len, iterations - 1) < n
      invariant chunks + Rows(arr[Min(i, n)..], len) == Rows(arr, len)
      decreases n - i
    {
      RowsStep(arr, i, len);
      chunks := chunks + [Slice(arr, i, i + len)];
      i := i + len;
      iterations := iterations + 1;
    }
    assert arr[Min(i, n)..] == [];
    RowsFlatten(arr, len);
    if len > 0 {
      RowsWellChunked(arr, len);
      LoopExit(n, len, iterations);
    }
  }

  /** One loop step: the rows of `s[i..]` are the slice at `i` followed by the rows of what comes after it. */
  lemma RowsStep<T>(s: seq<T>, i: nat, len: int)
    requires i < |s| && len > 0
    ensures Rows(s[i..], len) == [Slice(s, i, i + len)] + Rows(s[Min(i + len, |s|)..], len)
  {
    var t := s[i..];
    if |t| <= len {
      assert Slice(s, i, i + len) == t;
      assert s[Min(i + len, |s|)..] == [];
    } else {
      assert t[..len] == Slice(s, i, i + len);
      assert t[len..] == s[Min(i + len, |s|)..];
    }
  }

  /** Concatenating the rows gives back the input, in order. */
  lemma {:induction false} RowsFlatten<T>(s: seq<T>, len: int)
    requires len > 0 || s == []
    ensures Flatten(Rows(s, len)) == s
    decreases |s|
  {
    if s == [] {
    } else if |s| <= len {
      assert Flatten(Rows(s, len)) == s + Flatten([]);
    } else {
      var r := Rows(s, len);
      RowsFlatten(s[len..], len);
      assert r[1..] == Rows(s[len..], len);
      assert s == s[..len] + s[len..];
    }
  }

  /** Every row but the last is full, and the last holds between 1 and `len` entries. */
  lemma {:induction false} RowsWellChunked<T>(s: seq<T>, len: int)
    requires len > 0
    ensures WellChunked(Rows(s, len), len)
    decreases |s|
  {
    if |s| > len {
      RowsWellChunked(s[len..], len);
      var r := Rows(s, len);
      assert r[1..] == Rows(s[len..], len);
      forall k | 0 <= k < |r|
        ensures 0 < |r[k]| <= len && (k < |r| - 1 ==> |r[k]| == len)
      {
        if k > 0 {
          assert r[k] == r[1..][k - 1];
        }
      }
    }
  }

  /** Cancelling a positive factor from a strict inequality. */
  lemma CancelLess(a: int, b: int, d: int)
    requires d > 0 && a * d < b * d
    ensures a < b
  {
    assert (b - a) * d > 0;
  }

  /** Multiplying by a positive factor keeps order. */
  lemma MulMonotone(a: int, b: int, d: int)
    requires d > 0 && a <= b
    ensures a * d <= b * d
  {
    assert (b - a) * d >= 0;
  }

  /** One more factor adds one more `d`. */
  lemma MulSucc(a: int, d: int)
    ensures (a + 1) * d == a * d + d
  {
  }

  /** Integer division is pinned down by its bounds: q * d <= m < (q + 1) * d gives m / d == q. */
  lemma DivUnique(m: int, d: int, q: int)
    requires d > 0 && q * d <= m < q * d + d
    ensures m / d == q
  {
    var q', r := m / d, m % d;
    assert m == q' * d + r && 0 <= r < d;
    CancelLess(q', q + 1, d);
    CancelLess(q - 1, q', d);
  }

  /** ⌈n / d⌉ is the least c with n <= c * d. */
  lemma CeilDivBounds(n: nat, d: int)
    requires d > 0
    ensures (CeilDiv(n, d) - 1) * d < n <= CeilDiv(n, d) * d
  {
    var m := n + d - 1;
    assert m == (m / d) * d + m % d && 0 <= m % d < d;
  }

  /** ⌈(n + d) / d⌉ is one more than ⌈n / d⌉. */
  lemma CeilDivStep(n: nat, d: int)
    requires d > 0
    ensures CeilDiv(n + d, d) == CeilDiv(n, d) + 1
  {
    var m := n + d - 1;
    var q := m / d;
    assert m == q * d + m % d && 0 <= m % d < d;
    DivUnique(m + d, d, q + 1);
  }

  /** For 0 < n <= d, ⌈n / d⌉ is 1. */
  lemma CeilDivOne(n: nat, d: int)
    requires 0 < n <= d
    ensures CeilDiv(n, d) == 1
  {
    DivUnique(n + d - 1, d, 1);
  }

  /** The number of rows is ⌈|s| / len⌉. */
  lemma {:induction false} RowsCount<T>(s: seq<T>, len: int)
    requires len > 0
    ensures |Rows(s, len)| == CeilDiv(|s|, len)
    decreases |s|
  {
    if s == [] {
    } else if |s| <= len {
      CeilDivOne(|s|, len);
    } else {
      RowsCount(s[len..], len);
      CeilDivStep(|s| - len, len);
    }
  }

  /** The rows are the only split of `s` into well-chunked pieces: nothing else concatenates to `s` with that shape. */
  lemma {:induction false} RowsUnique<T>(s: seq<T>, len: int, rows: seq<seq<T>>)
    requires len > 0
    requires Flatten(rows) == s && WellChunked(rows, len)
    ensures rows == Rows(s, len)
    decreases |rows|
  {
    if rows == [] {
    } else {
      var tail := rows[1..];
      assert WellChunked(tail, len) by {
        forall k | 0 <= k < |tail| ensures 0 < |tail[k]| <= len && (k < |tail| - 1 ==> |tail[k]| == len) {
          assert tail[k] == rows[k + 1];
        }
      }
      FlattenLength(tail);
      if tail == [] {
        assert s == rows[0];
      } else {
        assert |rows[0]| == len;
        assert |tail[0]| > 0;
        assert s[..len] == rows[0] && s[len..] == Flatten(tail);
        RowsUnique(s[len..], len, tail);
      }
    }
  }

  /** A non-empty list of non-empty rows flattens to something at least as long as its first row. */
  lemma FlattenLength<T>(rows: seq<seq<T>>)
    ensures rows != [] && |rows[0]| > 0 ==> |Flatten(rows)| >= |rows[0]|
  {
    if rows != [] {
      assert Flatten(rows) == rows[0] + Flatten(rows[1..]);
    }
  }

  /** With `len <= 0` and a non-empty input, `i` never reaches the length: the loop never ends. */
  lemma {:induction false} NoProgress(n: nat, len: int, k: nat)
    requires len <= 0 && n > 0
    ensures IndexAfter(len, k) <= 0 < n
  {
    if k > 0 {
      NoProgress(n, len, k - 1);
    }
  }

  /** With `len > 0` the guard `i < n` fails for the first time after ⌈n / len⌉ iterations, one per row. */
  lemma Terminates(n: nat, len: int, k: nat)
    requires len > 0
    ensures IndexAfter(len, k) >= n <==> k >= CeilDiv(n, len)
  {
    var c := CeilDiv(n, len);
    CeilDivBounds(n, len);
    if k >= c {
      MulMonotone(c, k, len);
    } else {
      MulMonotone(k, c - 1, len);
    }
  }

  /** The loop stops at the first iteration count whose index reaches `n`: that count is ⌈n / len⌉. */
  lemma LoopExit(n: nat, len: int, k: nat)
    requires len > 0
    requires IndexAfter(len, k) >= n
    requires k > 0 ==> IndexAfter(len, k - 1) < n
    ensures k == CeilDiv(n, len)
  {
    Terminates(n, len, k);
    if k > 0 {
      Terminates(n, len, k - 1);
    }
  }

  /** The last row holds whatever the full rows before it leave over. */
  lemma {:induction false} RowsLastLength<T>(s: seq<T>, len: int)
    requires len > 0 && s != []
    ensures |Rows(s, len)[|Rows(s, len)| - 1]| == |s| - (|Rows(s, len)| - 1) * len
    decreases |s|
  {
    if |s| > len {
      var r, rest := Rows(s, len), Rows(s[len..], len);
      RowsLastLength(s[len..], len);
      assert r == [s[..len]] + rest;
      assert |r| == |rest| + 1 && r[|r| - 1] == rest[|rest| - 1];
      MulSucc(|rest| - 1, len);
    }
  }

  /** The 40 photo entries become 5 rows of 8. */
  lemma PhotoRows<T>(photos: seq<T>)
    requires |photos| == PhotoCount
    ensures |Rows(photos, NumberOfColumns)| == 5
    ensures forall k :: 0 <= k < 5 ==> |Rows(photos, NumberOfColumns)[k]| == 8
  {
    RowsCount(photos, NumberOfColumns);
    CeilDivOne(7, 8);
    CeilDivStep(7, 8);
    CeilDivStep(15, 8);
    CeilDivStep(23, 8);
    CeilDivStep(31, 8);
    RowsWellChunked(photos, NumberOfColumns);
    RowsLastLength(photos, NumberOfColumns);
  }
}
