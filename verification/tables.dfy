/**
 * Fixed name-to-code tables written as object literals. An object literal is
 * modelled by its entries in `Object.entries` order; `table[key]` and
 * `Object.entries(table).find(…)` both become first-match searches.
 */
module Tables {
  import opened Wrappers
  import JsText

  type Entries = seq<(string, string)>

  /** The zero-padded two-digit code of `n`, as the tables spell their codes. */
  function TwoDigitCode(n: nat): (r: string)
    requires n < 100
    ensures |r| == 2 && JsText.AllDigits(r)
    ensures JsText.DecimalValue(r) == n
  {
    [JsText.DigitChar(n / 10), JsText.DigitChar(n % 10)]
  }

  /** Two-digit codes of different numbers differ. */
  lemma TwoDigitCodeInjective(m: nat, n: nat)
    requires m < 100 && n < 100 && m != n
    ensures TwoDigitCode(m) != TwoDigitCode(n)
  {
    assert JsText.DecimalValue(TwoDigitCode(m)) != JsText.DecimalValue(TwoDigitCode(n));
  }

  ghost predicate DistinctKeys(t: Entries) {
    forall i, j | 0 <= i < j < |t| :: t[i].0 != t[j].0
  }

  ghost predicate DistinctValues(t: Entries) {
    forall i, j | 0 <= i < j < |t| :: t[i].1 != t[j].1
  }

  /** The position of the first entry whose key is `key`. */
  function FirstKeyIndex(t: Entries, key: string): (r: Option<nat>)
    ensures r.None? <==> forall i | 0 <= i < |t| :: t[i].0 != key
    ensures r.Some? ==> r.value < |t| && t[r.value].0 == key
    ensures r.Some? ==> forall j | 0 <= j < r.value :: t[j].0 != key
  {
    if |t| == 0 then None
    else if t[0].0 == key then Some(0)
    else match FirstKeyIndex(t[1..], key)
      case None => None
      case Some(i) => Some(i + 1)
  }

  /** The position of the first entry whose value is `value`. */
  function FirstValueIndex(t: Entries, value: string): (r: Option<nat>)
    ensures r.None? <==> forall i | 0 <= i < |t| :: t[i].1 != value
    ensures r.Some? ==> r.value < |t| && t[r.value].1 == value
    ensures r.Some? ==> forall j | 0 <= j < r.value :: t[j].1 != value
  {
    if |t| == 0 then None
    else if t[0].1 == value then Some(0)
    else match FirstValueIndex(t[1..], value)
      case None => None
      case Some(i) => Some(i + 1)
  }

  /** `table[key]`, `None` standing for `undefined`. */
  function ValueOf(t: Entries, key: string): Option<string> {
    match FirstKeyIndex(t, key)
    case None => None
    case Some(i) => Some(t[i].1)
  }

  /** The key of `Object.entries(table).find(([_, v]) => v === value)`. */
  function KeyOf(t: Entries, value: string): Option<string> {
    match FirstValueIndex(t, value)
    case None => None
    case Some(i) => Some(t[i].0)
  }

  /** With distinct keys, an entry is the first one carrying its key. */
  lemma FirstKeyIndexUnique(t: Entries, i: nat)
    requires DistinctKeys(t) && i < |t|
    ensures FirstKeyIndex(t, t[i].0) == Some(i)
  {
  }

  /** With distinct values, an entry is the first one carrying its value. */
  lemma FirstValueIndexUnique(t: Entries, i: nat)
    requires DistinctValues(t) && i < |t|
    ensures FirstValueIndex(t, t[i].1) == Some(i)
  {
  }

  /**
   * A lookup that finds every entry of a table with distinct keys, and finds
   * nothing that is not an entry, is the table's `table[key]`.
   */
  lemma ValueOfAgrees(t: Entries, lookup: string -> Option<string>, key: string)
    requires DistinctKeys(t)
    requires forall i | 0 <= i < |t| :: lookup(t[i].0) == Some(t[i].1)
    requires lookup(key).Some? ==> (key, lookup(key).value) in t
    ensures ValueOf(t, key) == lookup(key)
  {
    if lookup(key).Some? {
      var i :| 0 <= i < |t| && t[i] == (key, lookup(key).value);
      FirstKeyIndexUnique(t, i);
    }
  }

  /**
   * A reverse lookup that finds every entry of a table with distinct values,
   * and finds nothing that is not an entry, is the table's first-match search.
   */
  lemma KeyOfAgrees(t: Entries, lookup: string -> Option<string>, value: string)
    requires DistinctValues(t)
    requires forall i | 0 <= i < |t| :: lookup(t[i].1) == Some(t[i].0)
    requires lookup(value).Some? ==> (lookup(value).value, value) in t
    ensures KeyOf(t, value) == lookup(value)
  {
    if lookup(value).Some? {
      var i :| 0 <= i < |t| && t[i] == (lookup(value).value, value);
      FirstValueIndexUnique(t, i);
    }
  }
}
