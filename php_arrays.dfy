/**
 * The PHP array behaviour the breadcrumb builder relies on: reading a key
 * through `isset`, the union operator `+`, `array_splice` on a list, and
 * the truthiness of a string-or-null value.
 */
module PhpArrays {
  import opened Wrappers

  /** A string-keyed PHP array whose values are strings or `null`. */
  type Vars = map<string, Option<string>>

  /** `isset($m[$k]) ? $m[$k] : null`: an absent key and a key holding `null` both read as `null`. */
  function Get(m: Vars, k: string): (r: Option<string>)
    ensures r.None? <==> k !in m || m[k].None?
    ensures r.Some? ==> m[k] == r
  {
    if k in m then m[k] else None
  }

  /**
   * `$a + $b`: every key of either array, and on a key both hold the value
   * of `$a` is kept (the right operand never overwrites).
   */
  function Union<K, V>(a: map<K, V>, b: map<K, V>): (r: map<K, V>)
    ensures r.Keys == a.Keys + b.Keys
    ensures forall k :: k in a ==> r[k] == a[k]
    ensures forall k :: k in b && k !in a ==> r[k] == b[k]
  {
    b + a
  }

  /** Adding the same array twice adds nothing the second time. */
  lemma UnionIdempotent<K, V>(a: map<K, V>, b: map<K, V>)
    ensures Union(Union(a, b), b) == Union(a, b)
  {
  }

  /** Adding an empty array changes nothing. */
  lemma UnionEmpty<K, V>(a: map<K, V>)
    ensures Union(a, map[]) == a
  {
  }

  /** Adding an array to an empty one gives that array. */
  lemma UnionEmptyLeft<K, V>(b: map<K, V>)
    ensures Union(map[], b) == b
  {
  }

  /**
   * PHP truthiness of a string or `null`: `null`, `""` and `"0"` are false.
   * By length: every string of two or more characters is true, and a
   * one-character string is true unless it is the digit zero.
   */
  function Truthy(v: Option<string>): (b: bool)
    ensures b ==> v.Some? && |v.value| >= 1
    ensures v.Some? && |v.value| >= 2 ==> b
    ensures v.Some? && |v.value| == 1 ==> (b <==> v.value[0] != '0')
  {
    v.Some? && v.value != "" && v.value != "0"
  }

  /**
   * The start index `array_splice` uses on a list of `n` elements: a
   * negative offset counts from the end, and the result is clamped to `0..n`.
   */
  function SpliceOffset(n: nat, offset: int): (o: nat)
    ensures o <= n
    ensures 0 <= offset <= n ==> o == offset
    ensures n < offset ==> o == n
    ensures 0 <= n + offset && offset < 0 ==> o == n + offset
    ensures n + offset < 0 ==> o == 0
  {
    if offset > n then n
    else if offset < 0 then (if n + offset < 0 then 0 else n + offset)
    else offset
  }

  /** What `array_splice` returns (`removed`) and what it leaves in the array. */
  datatype Spliced<T> = Spliced(removed: seq<T>, list: seq<T>)

  /**
   * The cut `array_splice` makes once its offset is normalised to `o`: up to
   * `length` elements from `o` are cut out and `replacement` is put in their
   * place.
   */
  function SpliceAt<T>(s: seq<T>, o: nat, length: nat, replacement: seq<T>): (r: Spliced<T>)
    requires o <= |s|
    ensures |r.removed| <= length
    ensures |r.list| == |s| - |r.removed| + |replacement|
  {
    var l := if o + length > |s| then |s| - o else length;
    Spliced(s[o..o + l], s[..o] + replacement + s[o + l..])
  }

  /** `array_splice($s, $offset, $length, $replacement)` on a list with a non-negative length. */
  function Splice<T>(s: seq<T>, offset: int, length: nat, replacement: seq<T>): (r: Spliced<T>)
    ensures |r.removed| <= length
    ensures |r.list| == |s| - |r.removed| + |replacement|
  {
    SpliceAt(s, SpliceOffset(|s|, offset), length, replacement)
  }

  /**
   * Nothing is lost: the elements kept and the elements removed are exactly
   * the old elements and the replacement.
   */
  lemma {:induction false} SpliceConserves<T>(s: seq<T>, offset: int, length: nat, replacement: seq<T>)
    ensures var r := Splice(s, offset, length, replacement);
      multiset(r.list) + multiset(r.removed) == multiset(s) + multiset(replacement)
  {
    var o := SpliceOffset(|s|, offset);
    var l := if o + length > |s| then |s| - o else length;
    assert s == s[..o] + s[o..o + l] + s[o + l..];
  }

  /** Splicing nothing out at an offset in `0..|s|` inserts there. */
  lemma SpliceInsert<T>(s: seq<T>, p: int, x: T)
    requires 0 <= p <= |s|
    ensures Splice(s, p, 0, [x]) == Spliced([], s[..p] + [x] + s[p..])
  {
  }

  /** One element out at an index of the list removes exactly that element. */
  lemma SpliceRemoveAt<T>(s: seq<T>, p: int, replacement: seq<T>)
    requires 0 <= p < |s|
    ensures Splice(s, p, 1, replacement) == Spliced([s[p]], s[..p] + replacement + s[p + 1..])
  {
  }

  /** At or past the end nothing is removed and the replacement is appended. */
  lemma SplicePastEnd<T>(s: seq<T>, p: int, length: nat, replacement: seq<T>)
    requires p >= |s|
    ensures Splice(s, p, length, replacement) == Spliced([], s + replacement)
  {
  }

  /**
   * `array_splice($s, $p, 1, [$x])` computed directly: the element at the
   * normalised offset is overwritten and returned, or, at or past the end,
   * `x` is appended and nothing is returned.
   */
  method SpliceOne<T>(s: seq<T>, p: int, x: T) returns (removed: seq<T>, list: seq<T>)
    ensures var o := SpliceOffset(|s|, p);
      && o < |list| && list[o] == x && Splice(s, p, 1, list[o..o + 1]) == Spliced(removed, list)
      && (0 <= p < |s| ==>
            && removed == [s[p]] && |list| == |s|
            && list[..p] == s[..p] && list[p + 1..] == s[p + 1..])
      && (p >= |s| ==> removed == [] && list == s + [x])
  {
    var o := SpliceOffset(|s|, p);
    if o < |s| {
      removed, list := [s[o]], s[o := x];
      assert s == s[..o] + [s[o]] + s[o + 1..];
      assert list == s[..o] + [x] + s[o + 1..];
    } else {
      removed, list := [], s + [x];
    }
    assert list[o..o + 1] == [x];
  }

  /** A negative offset down to `-|s|` addresses the element that far from the end. */
  lemma SpliceFromEnd<T>(s: seq<T>, p: int, length: nat, replacement: seq<T>)
    requires 0 <= |s| + p && p < 0
    ensures Splice(s, p, length, replacement) == Splice(s, |s| + p, length, replacement)
  {
  }
}
