/** The two scoring metrics of a hole (`scorings = ['Bytes', 'Chars']`), the
    index arithmetic the editor uses on them, and the stroke counts. */
module Metrics {
  import opened Wrappers

  datatype Metric = Bytes | Chars

  /** The position of the metric in `scorings`, which is also the index of its
      solutions dictionary and the digit of its autosave key. */
  function Index(m: Metric): (i: nat)
    ensures i < 2
  {
    match m
    case Bytes => 0
    case Chars => 1
  }

  function FromIndex(i: nat): (m: Metric)
    requires i < 2
    ensures Index(m) == i
  {
    if i == 0 then Bytes else Chars
  }

  /** `getOtherScoring`: `1 - value`. */
  function Other(m: Metric): (r: Metric)
    ensures r != m
    ensures Index(r) == 1 - Index(m)
  {
    match m
    case Bytes => Chars
    case Chars => Bytes
  }

  lemma OtherInvolution(m: Metric)
    ensures Other(Other(m)) == m
    ensures Other(m) != m
  {
  }

  /** `scorings[index]`: the name stored under the global `solution` key. */
  function Name(m: Metric): (s: string)
    ensures s == "Bytes" || s == "Chars"
    ensures s == "Bytes" <==> m == Bytes
  {
    match m
    case Bytes => "Bytes"
    case Chars => "Chars"
  }

  // ---------------------------------------------------------------------
  // Reading the remembered metric back at page load.

  /** As written: `scorings.indexOf(localStorage.getItem('solution') ?? 'Bytes')`.
      `indexOf` answers -1 for a name that is not in `scorings`. */
  function IndexOfStored(stored: Option<string>): (i: int)
    ensures -1 <= i < 2
    ensures i == -1 <==> stored.Some? && stored.value != "Bytes" && stored.value != "Chars"
  {
    var name := if stored.Some? then stored.value else "Bytes";
    if name == "Bytes" then 0 else if name == "Chars" then 1 else -1
  }

  /** Any stored value other than the two names (say `"bytes"`) yields an index
      that is not a metric; the first `getSolutionCode` call then indexes
      `solutions[-1]`, which is `undefined`, and throws. */
  lemma IndexOfStoredOutOfRange()
    ensures IndexOfStored(Some("bytes")) == -1
  {
    assert "bytes" != "Bytes" by { assert "bytes"[0] != "Bytes"[0]; }
    assert "bytes" != "Chars" by { assert "bytes"[0] != "Chars"[0]; }
  }

  /** Corrected reading: an unknown or missing name falls back to Bytes. */
  function StoredMetric(stored: Option<string>): (m: Metric)
    ensures stored.Some? && stored.value == "Chars" ==> m == Chars
    ensures !(stored.Some? && stored.value == "Chars") ==> m == Bytes
    ensures IndexOfStored(stored) != -1 ==> Index(m) == IndexOfStored(stored)
  {
    if stored == Some("Chars") then Chars else Bytes
  }

  /** What `setSolution` writes is read back as the same metric. */
  lemma {:induction false} StoredMetricRoundTrip(m: Metric)
    ensures StoredMetric(Some(Name(m))) == m
  {
    match m
    case Bytes =>
      assert Name(Bytes) != "Chars" by { assert Name(Bytes)[0] != "Chars"[0]; }
    case Chars =>
  }

  // ---------------------------------------------------------------------
  // Stroke counts. `byteLen` and `charLen` come from `./_util`, which is not
  // part of this model: they are taken to be the UTF-8 length of the code and
  // the number of Unicode scalar values in it.

  function Utf8Width(c: char): (w: nat)
    ensures 1 <= w <= 4
    ensures w == 1 <==> (c as int) < 0x80
  {
    if (c as int) < 0x80 then 1
    else if (c as int) < 0x800 then 2
    else if (c as int) < 0x1_0000 then 3
    else 4
  }

  function ByteLen(s: string): nat
  {
    if s == [] then 0 else Utf8Width(s[0]) + ByteLen(s[1..])
  }

  function CharLen(s: string): nat
  {
    |s|
  }

  /** `getScoring(str, index)`. */
  function Score(m: Metric, s: string): (n: nat)
    ensures m == Chars ==> n == |s|
    ensures n == 0 <==> s == ""
  {
    match m
    case Bytes => ByteLen(s)
    case Chars => CharLen(s)
  }

  /** Every character takes one to four bytes. */
  lemma {:induction false} ByteLenBounds(s: string)
    ensures CharLen(s) <= ByteLen(s) <= 4 * CharLen(s)
  {
    if s != [] {
      ByteLenBounds(s[1..]);
    }
  }

  /** The two metrics tie exactly on ASCII code. */
  lemma {:induction false} ByteLenIsCharLenIffAscii(s: string)
    ensures ByteLen(s) == CharLen(s) <==> forall k :: 0 <= k < |s| ==> (s[k] as int) < 0x80
  {
    if s != [] {
      ByteLenIsCharLenIffAscii(s[1..]);
      ByteLenBounds(s[1..]);
      assert forall k :: 1 <= k < |s| ==> s[k] == s[1..][k - 1];
    }
  }

  lemma {:induction false} ByteLenAppend(a: string, b: string)
    ensures ByteLen(a + b) == ByteLen(a) + ByteLen(b)
  {
    if a != [] {
      assert (a + b)[1..] == a[1..] + b;
      ByteLenAppend(a[1..], b);
    } else {
      assert a + b == b;
    }
  }
}
