/** The per-device store behind `localStorage`: string keys, string values,
    and the key scheme the editor uses for its autosaved drafts. */
module LocalStorage {
  import opened Wrappers
  import opened Metrics

  type Store = map<string, string>

  /** `localStorage.getItem(key)`: `null` when the key is absent. */
  function GetItem(st: Store, key: string): (r: Option<string>)
    ensures r.Some? <==> key in st
    ensures r.Some? ==> r.value == st[key]
  {
    if key in st then Some(st[key]) else None
  }

  /** `localStorage.setItem(key, value)`: read-after-write gives the value,
      and no other key changes. */
  function SetItem(st: Store, key: string, value: string): (r: Store)
    ensures GetItem(r, key) == Some(value)
    ensures forall k :: k != key ==> GetItem(r, k) == GetItem(st, k)
    ensures r.Keys == st.Keys + {key}
  {
    st[key := value]
  }

  /** `localStorage.removeItem(key)`: the key reads as `null` afterwards, and
      no other key changes. */
  function RemoveItem(st: Store, key: string): (r: Store)
    ensures GetItem(r, key) == None
    ensures forall k :: k != key ==> GetItem(r, k) == GetItem(st, k)
    ensures r.Keys == st.Keys - {key}
  {
    st - {key}
  }

  lemma RemoveItemIdempotent(st: Store, key: string)
    ensures RemoveItem(RemoveItem(st, key), key) == RemoveItem(st, key)
  {
  }

  /** Two stores that answer every `getItem` alike are the same store. */
  lemma {:induction false} SameReads(a: Store, b: Store)
    requires forall k :: GetItem(a, k) == GetItem(b, k)
    ensures a == b
  {
    forall k | k in a
      ensures k in b && a[k] == b[k]
    {
      assert GetItem(a, k) == GetItem(b, k);
    }
    forall k | k in b
      ensures k in a
    {
      assert GetItem(a, k) == GetItem(b, k);
    }
  }

  // ---------------------------------------------------------------------
  // Keys.

  /** The global key holding the last chosen language. */
  const LangKey: string := "lang"

  /** The global key holding the name of the last chosen metric. */
  const SolutionKey: string := "solution"

  function Digit(m: Metric): (d: string)
    ensures |d| == 1
  {
    match m
    case Bytes => "0"
    case Chars => "1"
  }

  /** `getAutoSaveKey`: `code_${hole}_${lang}_${solution}`. */
  function AutoSaveKey(hole: string, lang: string, m: Metric): (k: string)
    ensures |k| == |hole| + |lang| + 8
    ensures k[0] == 'c'
  {
    "code_" + hole + "_" + lang + "_" + Digit(m)
  }

  /** Within one hole, each (language, metric) pair has its own draft key. */
  lemma {:induction false} AutoSaveKeyInjective(hole: string, l1: string, m1: Metric, l2: string, m2: Metric)
    requires AutoSaveKey(hole, l1, m1) == AutoSaveKey(hole, l2, m2)
    ensures l1 == l2 && m1 == m2
  {
    var p := "code_" + hole + "_";
    var k1 := AutoSaveKey(hole, l1, m1);
    var k2 := AutoSaveKey(hole, l2, m2);
    assert k1 == p + l1 + "_" + Digit(m1);
    assert k2 == p + l2 + "_" + Digit(m2);
    assert |l1| == |l2|;
    assert l1 == k1[|p|..|p| + |l1|];
    assert l2 == k2[|p|..|p| + |l2|];
    assert Digit(m1)[0] == k1[|k1| - 1];
    assert Digit(m2)[0] == k2[|k2| - 1];
  }

  /** Draft keys never collide with the two global keys. */
  lemma AutoSaveKeyNotGlobal(hole: string, lang: string, m: Metric)
    ensures AutoSaveKey(hole, lang, m) != LangKey
    ensures AutoSaveKey(hole, lang, m) != SolutionKey
  {
    assert LangKey[0] == 'l';
    assert SolutionKey[0] == 's';
  }

  /** The two draft keys of one language are distinct. */
  lemma MetricKeysDistinct(hole: string, lang: string)
    ensures AutoSaveKey(hole, lang, Bytes) != AutoSaveKey(hole, lang, Chars)
  {
    var k0 := AutoSaveKey(hole, lang, Bytes);
    var k1 := AutoSaveKey(hole, lang, Chars);
    assert k0[|k0| - 1] == '0';
    assert k1[|k1| - 1] == '1';
  }
}
