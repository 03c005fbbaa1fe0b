/**
 * The PHP string built-ins the breadcrumb builder relies on, as pure functions:
 * `strpos`, `trim` with a character list of one character, `explode`,
 * `implode` and `str_replace` with a single search string.
 */
module PhpStrings {
  import opened Wrappers

  /** `n` occurs in `h` at index `i`. */
  predicate OccursAt(h: string, n: string, i: int) {
    0 <= i && i + |n| <= |h| && h[i..i + |n|] == n
  }

  /** `n` occurs somewhere in `h`. */
  ghost predicate Contains(h: string, n: string) {
    exists i :: OccursAt(h, n, i)
  }

  /** A one-character string occurs exactly where its character does. */
  lemma ContainsChar(s: string, c: char)
    ensures Contains(s, [c]) <==> c in s
  {
    if c in s {
      var i :| 0 <= i < |s| && s[i] == c;
      assert OccursAt(s, [c], i);
    }
    forall i | OccursAt(s, [c], i) ensures c in s {
      assert s[i..i + 1][0] == s[i];
    }
  }

  /** The first index at or after `from` where `n` occurs in `h`. */
  function StrPosFrom(h: string, n: string, from: nat): (r: Option<nat>)
    ensures r.Some? ==> from <= r.value && OccursAt(h, n, r.value)
    ensures forall j :: from <= j && (r.None? || j < r.value) ==> !OccursAt(h, n, j)
    decreases |h| - from
  {
    if from + |n| > |h| then None
    else if h[from..from + |n|] == n then Some(from)
    else StrPosFrom(h, n, from + 1)
  }

  /** `strpos($h, $n)`: the first occurrence of `n` in `h`, `None` for PHP's `false`. */
  function StrPos(h: string, n: string): (r: Option<nat>)
    ensures r.Some? <==> Contains(h, n)
    ensures r.Some? ==> OccursAt(h, n, r.value) && forall j :: 0 <= j < r.value ==> !OccursAt(h, n, j)
  {
    StrPosFrom(h, n, 0)
  }

  /** `ltrim($s, $c)`: drops every leading `c`. */
  function TrimLeft(s: string, c: char): (r: string)
    ensures |r| <= |s|
  {
    if s != [] && s[0] == c then TrimLeft(s[1..], c) else s
  }

  /** `ltrim` keeps a suffix that does not start with `c`, and cuts off only `c`s. */
  lemma {:induction false} TrimLeftSpec(s: string, c: char)
    ensures var r := TrimLeft(s, c);
      && r == s[|s| - |r|..] && (r == [] || r[0] != c)
      && forall k :: 0 <= k < |s| - |r| ==> s[k] == c
  {
    if s != [] && s[0] == c {
      TrimLeftSpec(s[1..], c);
      var r := TrimLeft(s[1..], c);
      assert s[1..][|s| - 1 - |r|..] == s[|s| - |r|..];
      forall k | 1 <= k < |s| - |r| ensures s[k] == c {
        assert s[k] == s[1..][k - 1];
      }
    }
  }

  /** `rtrim($s, $c)`: drops every trailing `c`. */
  function TrimRight(s: string, c: char): (r: string)
    ensures |r| <= |s|
  {
    if s != [] && s[|s| - 1] == c then TrimRight(s[..|s| - 1], c) else s
  }

  /** `rtrim` keeps a prefix that does not end with `c`, and cuts off only `c`s. */
  lemma {:induction false} TrimRightSpec(s: string, c: char)
    ensures var r := TrimRight(s, c);
      && r == s[..|r|] && (r == [] || r[|r| - 1] != c)
      && forall k :: |r| <= k < |s| ==> s[k] == c
  {
    if s != [] && s[|s| - 1] == c {
      var init := s[..|s| - 1];
      TrimRightSpec(init, c);
      var r := TrimRight(init, c);
      assert init[..|r|] == s[..|r|];
      forall k | |r| <= k < |s| - 1 ensures s[k] == c {
        assert s[k] == init[k];
      }
    }
  }

  /** `trim($s, $c)`: drops every leading and every trailing `c`; a string without `c` is kept. */
  function Trim(s: string, c: char): (r: string)
    ensures |r| <= |s|
    ensures c !in s ==> r == s
  {
    TrimRight(TrimLeft(s, c), c)
  }

  /** What `trim` keeps neither starts nor ends with `c`. */
  lemma TrimEnds(s: string, c: char)
    ensures var r := Trim(s, c); r == [] || (r[0] != c && r[|r| - 1] != c)
  {
    var left := TrimLeft(s, c);
    var r := TrimRight(left, c);
    TrimLeftSpec(s, c);
    TrimRightSpec(left, c);
    if r != [] {
      assert r[0] == left[0];
    }
  }

  /**
   * What `trim` keeps is a contiguous part of `s`: everything before it is
   * the leading `c`s that `ltrim` cuts off, and everything after it is `c`.
   */
  lemma TrimSpan(s: string, c: char)
    ensures var r, a := Trim(s, c), |s| - |TrimLeft(s, c)|;
      && a + |r| <= |s| && s[a..a + |r|] == r
      && (forall k :: 0 <= k < a ==> s[k] == c)
      && (forall k :: a + |r| <= k < |s| ==> s[k] == c)
  {
    var left := TrimLeft(s, c);
    var r := TrimRight(left, c);
    var a := |s| - |left|;
    TrimLeftSpec(s, c);
    TrimRightSpec(left, c);
    assert s[a..a + |r|] == r;
    forall k | a + |r| <= k < |s|
      ensures s[k] == c
    {
      assert s[k] == left[k - a];
    }
  }

  /** Trimming one `c` off each end of a string that neither starts nor ends with `c`. */
  lemma {:induction false} TrimAround(s: string, c: char)
    requires s != [] && s[0] != c && s[|s| - 1] != c
    ensures Trim([c] + s + [c], c) == s
  {
    var t := [c] + s + [c];
    assert t[1..] == s + [c];
    assert TrimLeft(t, c) == TrimLeft(s + [c], c);
    assert (s + [c])[0] == s[0];
    assert TrimLeft(s + [c], c) == s + [c];
    assert (s + [c])[..|s|] == s;
    assert TrimRight(s + [c], c) == TrimRight(s, c);
  }

  /**
   * `implode($d, $parts)`: the parts with `d` between neighbours, so the
   * delimiter shows up as soon as there are two parts.
   */
  function Implode(d: string, parts: seq<string>): (r: string)
    ensures |parts| >= 2 ==> Contains(r, d)
  {
    if parts == [] then ""
    else if |parts| == 1 then parts[0]
    else
      OccursAfter(parts[0], d, Implode(d, parts[1..]));
      parts[0] + d + Implode(d, parts[1..])
  }

  /** Imploding one more part adds the delimiter and that part at the end. */
  lemma {:induction false} ImplodeSnoc(d: string, parts: seq<string>, x: string)
    requires parts != []
    ensures Implode(d, parts + [x]) == Implode(d, parts) + d + x
  {
    if |parts| > 1 {
      ImplodeSnoc(d, parts[1..], x);
      assert (parts + [x])[1..] == parts[1..] + [x];
    }
  }

  /**
   * `explode($d, $s)` for a non-empty delimiter: the pieces of `s` between
   * the leftmost non-overlapping occurrences of `d`. Never empty, and
   * imploding the pieces with `d` gives `s` back.
   */
  function Explode(s: string, d: string): (r: seq<string>)
    requires d != []
    ensures |r| >= 1
    ensures Implode(d, r) == s
    decreases |s|
  {
    if |s| < |d| then [s]
    else if s[..|d|] == d then
      var rest := Explode(s[|d|..], d);
      assert ([""] + rest)[1..] == rest;
      [""] + rest
    else
      var rest := Explode(s[1..], d);
      ImplodeConsHead(d, [s[0]], rest[0], rest[1..]);
      assert [rest[0]] + rest[1..] == rest;
      [[s[0]] + rest[0]] + rest[1..]
  }

  lemma {:induction false} ImplodeConsHead(d: string, x: string, y: string, tail: seq<string>)
    ensures Implode(d, [x + y] + tail) == x + Implode(d, [y] + tail)
  {
    assert ([x + y] + tail)[1..] == tail;
    assert ([y] + tail)[1..] == tail;
  }

  /** The first piece of `explode` is a prefix of the exploded string. */
  lemma {:induction false} FirstPieceIsPrefix(d: string, parts: seq<string>)
    requires |parts| >= 1
    ensures |parts[0]| <= |Implode(d, parts)| && Implode(d, parts)[..|parts[0]|] == parts[0]
  {
    if |parts| > 1 {
      assert Implode(d, parts) == parts[0] + (d + Implode(d, parts[1..]));
    }
  }

  /** The last part ends the imploded string. */
  lemma {:induction false} LastPieceIsSuffix(d: string, parts: seq<string>)
    requires |parts| >= 1
    ensures var s, last := Implode(d, parts), parts[|parts| - 1];
      |last| <= |s| && s[|s| - |last|..] == last
  {
    if |parts| > 1 {
      var init := parts[..|parts| - 1];
      assert init + [parts[|parts| - 1]] == parts;
      ImplodeSnoc(d, init, parts[|parts| - 1]);
    }
  }

  /** No piece of `explode` contains the delimiter: the split is at every occurrence. */
  lemma {:induction false} ExplodePiecesFree(s: string, d: string)
    requires d != []
    ensures forall i :: 0 <= i < |Explode(s, d)| ==> !Contains(Explode(s, d)[i], d)
    decreases |s|
  {
    var r := Explode(s, d);
    if |s| < |d| {
      forall j | OccursAt(s, d, j) ensures false { }
    } else if s[..|d|] == d {
      ExplodePiecesFree(s[|d|..], d);
      var rest := Explode(s[|d|..], d);
      assert r == [""] + rest;
      forall i | 0 <= i < |r| ensures !Contains(r[i], d) {
        if i == 0 {
          forall j | OccursAt(r[0], d, j) ensures false { }
        } else {
          assert r[i] == rest[i - 1];
        }
      }
    } else {
      ExplodePiecesFree(s[1..], d);
      var rest := Explode(s[1..], d);
      assert r == [[s[0]] + rest[0]] + rest[1..];
      forall i | 0 <= i < |r| ensures !Contains(r[i], d) {
        if i == 0 {
          var p := [s[0]] + rest[0];
          FirstPieceIsPrefix(d, rest);
          assert p == s[..|p|];
          forall j | OccursAt(p, d, j) ensures false {
            OccursInTail(s[0], rest[0], d, j);
          }
        } else {
          assert r[i] == rest[i];
        }
      }
    }
  }

  /** An occurrence past the first character is an occurrence in the tail. */
  lemma OccursInTail(x: char, q: string, d: string, j: int)
    ensures OccursAt([x] + q, d, j) && j != 0 ==> OccursAt(q, d, j - 1)
  {
    if OccursAt([x] + q, d, j) && j != 0 {
      assert ([x] + q)[j..j + |d|] == q[j - 1..j - 1 + |d|];
    }
  }

  /** A string without the delimiter explodes into itself alone. */
  lemma {:induction false} ExplodeAbsent(s: string, d: string)
    requires d != [] && !Contains(s, d)
    ensures Explode(s, d) == [s]
    decreases |s|
  {
    if |s| >= |d| {
      assert !OccursAt(s, d, 0);
      ExplodeAbsent(s[1..], d) by {
        forall j | OccursAt(s[1..], d, j) ensures OccursAt(s, d, j + 1) {
          assert s[1..][j..j + |d|] == s[j + 1..j + 1 + |d|];
        }
      }
    }
  }

  /** For a one-character delimiter, a piece without that character followed by the delimiter splits off. */
  lemma {:induction false} ExplodeSplitsOff(a: string, c: char, rest: string)
    requires c !in a
    ensures Explode(a + [c] + rest, [c]) == [a] + Explode(rest, [c])
    decreases |a|
  {
    var s := a + [c] + rest;
    if a == [] {
      assert s[..1] == [c] && s[1..] == rest;
    } else {
      assert s[..1] == [a[0]] && a[0] != c;
      assert s[1..] == a[1..] + [c] + rest;
      ExplodeSplitsOff(a[1..], c, rest);
      assert [a[0]] + a[1..] == a;
    }
  }

  /**
   * For a one-character delimiter `explode` inverts `implode`: parts free of
   * the delimiter come back unchanged.
   */
  lemma {:induction false} ExplodeImplode(parts: seq<string>, c: char)
    requires |parts| >= 1
    requires forall i :: 0 <= i < |parts| ==> c !in parts[i]
    ensures Explode(Implode([c], parts), [c]) == parts
  {
    if |parts| == 1 {
      ExplodeAbsent(parts[0], [c]) by {
        forall j | 0 <= j < |parts[0]| ensures parts[0][j] != c {
          assert parts[0][j] in parts[0];
        }
        forall j ensures !OccursAt(parts[0], [c], j) {
          if 0 <= j < |parts[0]| {
            assert parts[0][j..j + 1][0] == parts[0][j];
          }
        }
      }
    } else {
      ExplodeImplode(parts[1..], c);
      assert Implode([c], parts) == parts[0] + [c] + Implode([c], parts[1..]);
      ExplodeSplitsOff(parts[0], c, Implode([c], parts[1..]));
      assert [parts[0]] + parts[1..] == parts;
    }
  }

  /**
   * `str_replace($search, $replace, $subject)`: every leftmost non-overlapping
   * occurrence of `search` becomes `replace`; an empty search changes nothing.
   */
  function StrReplace(search: string, replace: string, subject: string): (r: string)
    ensures search == [] ==> r == subject
    ensures |replace| == |search| ==> |r| == |subject|
    decreases |subject|
  {
    if search == [] || |subject| < |search| then subject
    else if subject[..|search|] == search then replace + StrReplace(search, replace, subject[|search|..])
    else [subject[0]] + StrReplace(search, replace, subject[1..])
  }

  /** `str_replace` is `implode($replace, explode($search, $subject))`. */
  lemma {:induction false} StrReplaceIsImplodeExplode(search: string, replace: string, subject: string)
    requires search != []
    ensures StrReplace(search, replace, subject) == Implode(replace, Explode(subject, search))
    decreases |subject|, 1
  {
    if |subject| >= |search| {
      if subject[..|search|] == search {
        ReplaceMatchStep(search, replace, subject);
      } else {
        ReplaceSkipStep(search, replace, subject);
      }
    }
  }

  /** The step of `StrReplaceIsImplodeExplode` where the subject starts with the search string. */
  lemma {:induction false} ReplaceMatchStep(search: string, replace: string, subject: string)
    requires search != [] && |search| <= |subject| && subject[..|search|] == search
    ensures StrReplace(search, replace, subject) == Implode(replace, Explode(subject, search))
    decreases |subject|, 0
  {
    var tail := subject[|search|..];
    var rest := Explode(tail, search);
    assert StrReplace(search, replace, subject) == replace + StrReplace(search, replace, tail);
    assert Explode(subject, search) == [""] + rest;
    StrReplaceIsImplodeExplode(search, replace, tail);
    assert ([""] + rest)[1..] == rest;
  }

  /** The step of `StrReplaceIsImplodeExplode` where the first character is copied through. */
  lemma {:induction false} ReplaceSkipStep(search: string, replace: string, subject: string)
    requires search != [] && |search| <= |subject| && subject[..|search|] != search
    ensures StrReplace(search, replace, subject) == Implode(replace, Explode(subject, search))
    decreases |subject|, 0
  {
    var tail := subject[1..];
    var rest := Explode(tail, search);
    assert StrReplace(search, replace, subject) == [subject[0]] + StrReplace(search, replace, tail);
    assert Explode(subject, search) == [[subject[0]] + rest[0]] + rest[1..];
    StrReplaceIsImplodeExplode(search, replace, tail);
    ImplodeConsHead(replace, [subject[0]], rest[0], rest[1..]);
    assert [rest[0]] + rest[1..] == rest;
  }

  /** A subject without the search string comes back unchanged. */
  lemma {:induction false} StrReplaceAbsent(search: string, replace: string, subject: string)
    requires !Contains(subject, search)
    ensures StrReplace(search, replace, subject) == subject
  {
    if search != [] {
      StrReplaceIsImplodeExplode(search, replace, subject);
      ExplodeAbsent(subject, search);
    }
  }

  /** Where the search string occurs, the replacement occurs in the result. */
  lemma {:induction false} StrReplaceInserts(search: string, replace: string, subject: string)
    requires search != [] && Contains(subject, search)
    ensures Contains(StrReplace(search, replace, subject), replace)
  {
    StrReplaceIsImplodeExplode(search, replace, subject);
    ExplodeSplits(subject, search);
  }

  /** A string that holds the delimiter explodes into two pieces or more. */
  lemma ExplodeSplits(s: string, d: string)
    requires d != []
    ensures Contains(s, d) ==> |Explode(s, d)| >= 2
  {
    var ps := Explode(s, d);
    ExplodePiecesFree(s, d);
    assert |ps| == 1 ==> ps[0] == s;
    assert !Contains(ps[0], d);
  }

  /** Text before the first character of the search string is copied through. */
  lemma {:induction false} StrReplacePrefix(search: string, replace: string, a: string, rest: string)
    requires search != [] && search[0] !in a
    ensures StrReplace(search, replace, a + rest) == a + StrReplace(search, replace, rest)
    decreases |a|
  {
    if a != [] {
      var s := a + rest;
      StrReplacePrefix(search, replace, a[1..], rest);
      assert s[1..] == a[1..] + rest;
      assert [a[0]] + a[1..] == a;
      if |s| >= |search| {
        assert s[..|search|][0] == a[0] != search[0];
        assert StrReplace(search, replace, s) == [s[0]] + StrReplace(search, replace, s[1..]);
        assert s[0] == a[0];
        assert [s[0]] + StrReplace(search, replace, s[1..]) == [a[0]] + (a[1..] + StrReplace(search, replace, rest));
      } else {
        assert |rest| < |search|;
        assert StrReplace(search, replace, rest) == rest;
        assert StrReplace(search, replace, s) == s;
      }
    } else {
      assert a + rest == rest;
    }
  }

  /** A search string placed once, with none of its first character around it, is replaced once. */
  lemma {:induction false} StrReplaceOnce(search: string, replace: string, before: string, after: string)
    requires search != [] && search[0] !in before && search[0] !in after
    ensures StrReplace(search, replace, before + search + after) == before + replace + after
  {
    StrReplacePrefix(search, replace, before, search + after);
    StrReplaceHead(search, replace, after);
    StrReplacePrefix(search, replace, after, "");
    assert after + "" == after;
    assert before + search + after == before + (search + after);
  }

  /** `n` occurs in `a + n + b` right after `a`. */
  lemma {:induction false} OccursAfter(a: string, n: string, b: string)
    ensures OccursAt(a + n + b, n, |a|) && Contains(a + n + b, n)
  {
    assert (a + n + b)[|a|..|a| + |n|] == n;
    assert OccursAt(a + n + b, n, |a|);
  }

  /** An occurrence at the start is replaced and the scan resumes after it. */
  lemma {:induction false} StrReplaceHead(search: string, replace: string, rest: string)
    requires search != []
    ensures StrReplace(search, replace, search + rest) == replace + StrReplace(search, replace, rest)
  {
    assert (search + rest)[..|search|] == search;
    assert (search + rest)[|search|..] == rest;
  }
}
