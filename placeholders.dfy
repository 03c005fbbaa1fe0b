/**
 * The placeholder substitution used for linked breadcrumbs: the pattern
 * `~\{(.*?)\}~` scanned left to right, with each match replaced by the
 * variable it names when that variable is set, and left as it was otherwise.
 */
module Placeholders {
  import opened Wrappers
  import opened PhpArrays

  /** A piece of a scanned template: one literal character, or a matched `{name}`. */
  datatype Piece = Char(c: char) | Token(name: string)

  /** The text a piece was scanned from. */
  function Text(p: Piece): string {
    match p
    case Char(c) => [c]
    case Token(name) => "{" + name + "}"
  }

  /** The text a sequence of pieces was scanned from. */
  function Untokenize(ps: seq<Piece>): string {
    if ps == [] then "" else Text(ps[0]) + Untokenize(ps[1..])
  }

  /**
   * Given the text right after a `{`, the length of the shortest name the
   * non-greedy `(.*?)` can take: up to the first `}`, with no newline before
   * it (`.` does not match a newline). `None` when no `}` can be reached.
   */
  function NameLength(s: string): (r: Option<nat>)
    ensures r.Some? ==> r.value < |s|
  {
    if s == [] then None
    else if s[0] == '}' then Some(0)
    else if s[0] == '\n' then None
    else
      match NameLength(s[1..])
      case Some(k) => Some(k + 1)
      case None => None
  }

  /** A match after a `{` ends at a `}`. */
  lemma {:induction false} NameLengthEnd(s: string)
    requires NameLength(s).Some?
    ensures s[NameLength(s).value] == '}'
  {
    if s[0] != '}' {
      NameLengthEnd(s[1..]);
    }
  }

  /**
   * The match after a `{` is the shortest one: it ends at a `}` with no `}`
   * and no newline before it, and there is none exactly when every `}` lies
   * beyond a newline.
   */
  lemma {:induction false} NameLengthSpec(s: string)
    ensures NameLength(s).Some? ==> s[NameLength(s).value] == '}'
    ensures NameLength(s).Some? ==> forall j :: 0 <= j < NameLength(s).value ==> s[j] != '}' && s[j] != '\n'
    ensures NameLength(s).None? ==> forall k :: 0 <= k < |s| && s[k] == '}' ==> '\n' in s[..k]
  {
    if s != [] && s[0] != '}' && s[0] != '\n' {
      NameLengthSpec(s[1..]);
      if NameLength(s[1..]).None? {
        forall k | 0 <= k < |s| && s[k] == '}'
          ensures '\n' in s[..k]
        {
          assert k >= 1 && s[1..][k - 1] == '}';
          assert '\n' in s[1..][..k - 1];
          assert s[1..][..k - 1] == s[1..k];
        }
      }
    }
  }

  /** A name the non-greedy group can capture: no `}` and no newline. */
  predicate PlainName(name: string) {
    forall j :: 0 <= j < |name| ==> name[j] != '}' && name[j] != '\n'
  }

  /** Every token among the pieces names something the group can capture. */
  predicate NamesPlain(ps: seq<Piece>) {
    forall i :: 0 <= i < |ps| && ps[i].Token? ==> PlainName(ps[i].name)
  }

  /**
   * The matches of `~\{(.*?)\}~` in `t`, leftmost first, with the text
   * between them kept character by character. Scanning loses nothing.
   */
  function Tokenize(t: string): (r: seq<Piece>)
    ensures |r| <= |t|
    decreases |t|
  {
    if t == [] then []
    else if t[0] == '{' && NameLength(t[1..]).Some? then
      var k := NameLength(t[1..]).value;
      [Token(t[1..k + 1])] + Tokenize(t[k + 2..])
    else
      [Char(t[0])] + Tokenize(t[1..])
  }

  /** Scanning loses nothing: the pieces spell the template they came from. */
  lemma {:induction false} TokenizeRoundTrip(t: string)
    ensures Untokenize(Tokenize(t)) == t
    decreases |t|, 1
  {
    if t != [] {
      if t[0] == '{' && NameLength(t[1..]).Some? {
        var k := NameLength(t[1..]).value;
        TokenizeMatch(t);
        NameLengthEnd(t[1..]);
        RoundTripMatch(t, k);
      } else {
        RoundTripChar(t);
      }
    }
  }

  /** The round trip where the scan takes a whole `{name}` of length `k` first. */
  lemma {:induction false} RoundTripMatch(t: string, k: nat)
    requires k + 2 <= |t| && t[0] == '{' && t[k + 1] == '}'
    requires Tokenize(t) == [Token(t[1..k + 1])] + Tokenize(t[k + 2..])
    ensures Untokenize(Tokenize(t)) == t
    decreases |t|, 0
  {
    var rest := t[k + 2..];
    TokenizeRoundTrip(rest);
    SplitAtToken(t, k);
    UntokenizeCons(Token(t[1..k + 1]), Tokenize(rest), rest, t);
  }

  /** The round trip where the scan keeps one character first. */
  lemma {:induction false} RoundTripChar(t: string)
    requires t != [] && !(t[0] == '{' && NameLength(t[1..]).Some?)
    ensures Untokenize(Tokenize(t)) == t
    decreases |t|, 0
  {
    var p, ps := Char(t[0]), Tokenize(t[1..]);
    assert Tokenize(t) == [p] + ps by {
      TokenizeChar(t);
    }
    assert Untokenize(ps) == t[1..] by {
      TokenizeRoundTrip(t[1..]);
    }
    assert t == Text(p) + t[1..];
    UntokenizeCons(p, ps, t[1..], t);
  }

  /** A string opening with `{` and holding `}` at `k + 1` is that token followed by the rest. */
  lemma SplitAtToken(t: string, k: nat)
    requires k + 1 < |t| && t[0] == '{' && t[k + 1] == '}'
    ensures t == Text(Token(t[1..k + 1])) + t[k + 2..]
  {
    var token := Text(Token(t[1..k + 1]));
    assert |token| == k + 2;
    assert forall j :: 0 <= j < k + 2 ==> token[j] == t[j];
    assert t[..k + 2] == token;
    assert t == t[..k + 2] + t[k + 2..];
  }

  /** A leading piece in front of pieces that spell `rest` spells the piece's text and `rest`. */
  lemma {:induction false} UntokenizeCons(p: Piece, ps: seq<Piece>, rest: string, t: string)
    requires Untokenize(ps) == rest && t == Text(p) + rest
    ensures Untokenize([p] + ps) == t
  {
    assert ([p] + ps)[1..] == ps;
  }

  /** Where no match starts, the scan keeps the first character and goes on with the rest. */
  lemma {:induction false} TokenizeChar(t: string)
    requires t != [] && !(t[0] == '{' && NameLength(t[1..]).Some?)
    ensures Tokenize(t) == [Char(t[0])] + Tokenize(t[1..])
  {
  }

  /** Where a match starts, the scan takes the whole `{name}` and goes on after it. */
  lemma {:induction false} TokenizeMatch(t: string)
    requires t != [] && t[0] == '{' && NameLength(t[1..]).Some?
    ensures var k := NameLength(t[1..]).value;
      k + 2 <= |t| && Tokenize(t) == [Token(t[1..k + 1])] + Tokenize(t[k + 2..])
  {
  }

  /** Expanding a leading piece and then the rest. */
  lemma {:induction false} ExpandCons(p: Piece, ps: seq<Piece>, vars: Vars)
    ensures Expand([p] + ps, vars) == Resolve(p, vars) + Expand(ps, vars)
  {
    assert ([p] + ps)[1..] == ps;
  }

  /** Every matched name is one the group can capture. */
  lemma {:induction false} TokenNames(t: string)
    ensures NamesPlain(Tokenize(t))
    decreases |t|, 1
  {
    if t != [] {
      if t[0] == '{' && NameLength(t[1..]).Some? {
        TokenNamesMatch(t);
      } else {
        TokenNamesChar(t);
      }
    }
  }

  /** The names where the scan takes a whole `{name}` first. */
  lemma {:induction false} TokenNamesMatch(t: string)
    requires t != [] && t[0] == '{' && NameLength(t[1..]).Some?
    ensures NamesPlain(Tokenize(t))
    decreases |t|, 0
  {
    var k := NameLength(t[1..]).value;
    TokenNames(t[k + 2..]);
    TokenizeMatch(t);
    NameLengthSpec(t[1..]);
    assert t[1..k + 1] == t[1..][..k];
    NamesPlainCons(Token(t[1..k + 1]), Tokenize(t[k + 2..]));
  }

  /** The names where the scan keeps one character first. */
  lemma {:induction false} TokenNamesChar(t: string)
    requires t != [] && !(t[0] == '{' && NameLength(t[1..]).Some?)
    ensures NamesPlain(Tokenize(t))
    decreases |t|, 0
  {
    TokenNames(t[1..]);
    TokenizeChar(t);
    NamesPlainCons(Char(t[0]), Tokenize(t[1..]));
  }

  /** A plain leading piece in front of plain pieces. */
  lemma NamesPlainCons(p: Piece, ps: seq<Piece>)
    requires p.Token? ==> PlainName(p.name)
    requires NamesPlain(ps)
    ensures NamesPlain([p] + ps)
  {
    assert forall i :: 1 <= i < |ps| + 1 ==> ([p] + ps)[i] == ps[i - 1];
  }

  /**
   * A `{` is kept as a literal character only where no match can start:
   * after it, every `}` lies beyond a newline.
   */
  lemma {:induction false} TokenizeLeftmost(t: string, i: nat)
    requires i < |Tokenize(t)| && Tokenize(t)[i] == Char('{')
    ensures NameLength(Untokenize(Tokenize(t)[i + 1..])).None?
    decreases |t|, 1
  {
    if t[0] == '{' && NameLength(t[1..]).Some? {
      var k := NameLength(t[1..]).value;
      TokenizeMatch(t);
      ShiftPastToken(Token(t[1..k + 1]), Tokenize(t[k + 2..]), i);
      LeftmostAfterMatch(t, i - 1, k);
    } else {
      LeftmostAfterChar(t, i);
    }
  }

  /** A literal `{` at `j + 1` among the pieces of a text that starts with a `{name}` of length `k`. */
  lemma {:induction false} LeftmostAfterMatch(t: string, j: nat, k: nat)
    requires k + 2 <= |t|
    requires j < |Tokenize(t[k + 2..])| && Tokenize(t[k + 2..])[j] == Char('{')
    requires j + 2 <= |Tokenize(t)| && Tokenize(t)[j + 2..] == Tokenize(t[k + 2..])[j + 1..]
    ensures NameLength(Untokenize(Tokenize(t)[j + 2..])).None?
    decreases |t|, 0
  {
    TokenizeLeftmost(t[k + 2..], j);
  }

  /** A literal `{` after a leading token sits one place earlier in the pieces after it. */
  lemma ShiftPastToken(x: Piece, ys: seq<Piece>, i: nat)
    requires x.Token? && i < |[x] + ys| && ([x] + ys)[i] == Char('{')
    ensures 1 <= i && ys[i - 1] == Char('{') && ([x] + ys)[i + 1..] == ys[i..]
  {
    assert ([x] + ys)[0] == x;
    ConsShift(x, ys, i);
  }

  /** A literal `{` among the pieces after a leading character. */
  lemma {:induction false} LeftmostAfterChar(t: string, i: nat)
    requires i < |Tokenize(t)| && Tokenize(t)[i] == Char('{')
    requires t != [] && !(t[0] == '{' && NameLength(t[1..]).Some?)
    ensures NameLength(Untokenize(Tokenize(t)[i + 1..])).None?
    decreases |t|, 0
  {
    if i == 0 {
      LeftmostAtHead(t);
    } else {
      TokenizeChar(t);
      ConsShift(Char(t[0]), Tokenize(t[1..]), i);
      TokenizeLeftmost(t[1..], i - 1);
    }
  }

  /** Past the first element of `[x] + ys`, indexing and slicing fall on `ys`, one place earlier. */
  lemma ConsShift<T>(x: T, ys: seq<T>, i: nat)
    requires 1 <= i <= |ys|
    ensures ([x] + ys)[i] == ys[i - 1] && ([x] + ys)[i + 1..] == ys[i..]
  {
  }

  /** A leading `{` kept as a character: no match starts in the rest of the text. */
  lemma {:induction false} LeftmostAtHead(t: string)
    requires |Tokenize(t)| > 0 && Tokenize(t)[0] == Char('{')
    requires t != [] && !(t[0] == '{' && NameLength(t[1..]).Some?)
    ensures NameLength(Untokenize(Tokenize(t)[1..])).None?
  {
    var r, rest := Tokenize(t), Tokenize(t[1..]);
    TokenizeChar(t);
    assert r[1..] == rest;
    TokenizeRoundTrip(t[1..]);
  }

  /** The replacement for one piece: a set variable's value, otherwise the piece's own text. */
  function Resolve(p: Piece, vars: Vars): (r: string)
    ensures r != Text(p) ==> p.Token? && Get(vars, p.name).Some?
  {
    match p
    case Char(c) => [c]
    case Token(name) => if Get(vars, name).Some? then Get(vars, name).value else Text(p)
  }

  /** The pieces, each replaced by what it resolves to. */
  function Expand(ps: seq<Piece>, vars: Vars): string {
    if ps == [] then "" else Resolve(ps[0], vars) + Expand(ps[1..], vars)
  }

  /**
   * `preg_replace_callback('~\{(.*?)\}~', …, t)` with the lookup in `vars`.
   * With no variable set (every one absent or `null`) the template comes back
   * as it was.
   */
  function Fill(t: string, vars: Vars): (r: string)
    ensures (forall k :: k in vars ==> vars[k].None?) ==> r == t
  {
    var ps := Tokenize(t);
    assert (forall k :: k in vars ==> vars[k].None?) ==> Expand(ps, vars) == t by {
      if forall k :: k in vars ==> vars[k].None? {
        ExpandUnset(ps, vars);
        TokenizeRoundTrip(t);
      }
    }
    Expand(ps, vars)
  }

  /** Where no token names a set variable, the pieces come back as the text they were scanned from. */
  lemma {:induction false} ExpandUnset(ps: seq<Piece>, vars: Vars)
    requires forall i :: 0 <= i < |ps| && ps[i].Token? ==> Get(vars, ps[i].name).None?
    ensures Expand(ps, vars) == Untokenize(ps)
  {
    if ps != [] {
      ExpandUnset(ps[1..], vars);
    }
  }

  /** Tokens whose variable is unset or `null` are left verbatim; with none set the template is unchanged. */
  lemma {:induction false} FillUnset(t: string, vars: Vars)
    requires forall i :: 0 <= i < |Tokenize(t)| && Tokenize(t)[i].Token? ==> Get(vars, Tokenize(t)[i].name).None?
    ensures Fill(t, vars) == t
  {
    ExpandUnset(Tokenize(t), vars);
    TokenizeRoundTrip(t);
  }

  /** Text without a `{` is copied through unchanged, whatever follows it. */
  lemma {:induction false} FillLiteral(a: string, rest: string, vars: Vars)
    requires '{' !in a
    ensures Fill(a + rest, vars) == a + Fill(rest, vars)
    decreases |a|, 1
  {
    if a == [] {
      assert a + rest == rest;
    } else {
      assert (a + rest)[0] == a[0] && a[0] in a;
      TokenizeChar(a + rest);
      FillLiteralCons(a, rest, vars);
    }
  }

  /** The step of `FillLiteral` for a non-empty literal, whose first character the scan keeps. */
  lemma {:induction false} FillLiteralCons(a: string, rest: string, vars: Vars)
    requires a != [] && '{' !in a
    requires Tokenize(a + rest) == [Char(a[0])] + Tokenize((a + rest)[1..])
    ensures Fill(a + rest, vars) == a + Fill(rest, vars)
    decreases |a|, 0
  {
    var s := a + rest;
    var tail, filled := Tokenize(s[1..]), Fill(rest, vars);
    assert Expand(tail, vars) == a[1..] + filled by {
      assert s[1..] == a[1..] + rest;
      FillLiteral(a[1..], rest, vars);
    }
    calc {
      Fill(s, vars);
      Expand([Char(a[0])] + tail, vars);
      { ExpandCons(Char(a[0]), tail, vars); }
      [a[0]] + Expand(tail, vars);
      [a[0]] + (a[1..] + filled);
      { ConsRegroup(a, filled); }
      a + filled;
    }
  }

  /** Putting a string's first character back in front of the rest of it and a suffix. */
  lemma ConsRegroup(a: string, z: string)
    requires a != []
    ensures [a[0]] + (a[1..] + z) == a + z
  {
    assert [a[0]] + a[1..] == a;
  }

  /** The name after a `{` ends at its first `}` when it holds no `}` and no newline. */
  lemma {:induction false} NameLengthOf(name: string, rest: string)
    requires PlainName(name)
    ensures NameLength(name + "}" + rest) == Some(|name|)
  {
    if name != [] {
      var s := name + "}" + rest;
      assert s[0] == name[0];
      assert s[1..] == name[1..] + "}" + rest;
      NameLengthOf(name[1..], rest);
    }
  }

  /** Literal text, then a well-formed `{name}`: the text is kept and the token resolved. */
  lemma {:induction false} FillTokenAfter(a: string, name: string, rest: string, vars: Vars)
    requires '{' !in a && PlainName(name)
    ensures Fill(a + ("{" + name + "}") + rest, vars) == a + Resolve(Token(name), vars) + Fill(rest, vars)
  {
    var token := "{" + name + "}";
    ConcatAssoc(a, token, rest);
    FillLiteral(a, token + rest, vars);
    FillToken(name, rest, vars);
    ConcatAssoc(a, Resolve(Token(name), vars), Fill(rest, vars));
  }

  /** Text without a `{` comes back unchanged. */
  lemma {:induction false} FillPlain(c: string, vars: Vars)
    requires '{' !in c
    ensures Fill(c, vars) == c
  {
    FillLiteral(c, "", vars);
    assert c + "" == c;
  }

  /** Literal text around two well-formed tokens: the text is kept and both tokens resolved. */
  lemma {:induction false} FillTwoTokens(a: string, n1: string, b: string, n2: string, c: string, vars: Vars)
    requires '{' !in a && '{' !in b && '{' !in c && PlainName(n1) && PlainName(n2)
    ensures Fill(a + ("{" + n1 + "}") + (b + ("{" + n2 + "}") + c), vars)
      == a + Resolve(Token(n1), vars) + b + Resolve(Token(n2), vars) + c
  {
    var v1, v2 := Resolve(Token(n1), vars), Resolve(Token(n2), vars);
    var tail := b + ("{" + n2 + "}") + c;
    FillTokenAfter(a, n1, tail, vars);
    FillTokenAfter(b, n2, c, vars);
    FillPlain(c, vars);
    ConcatAssoc(a + v1, b + v2, c);
  }

  /**
   * A template written as literal text around tokens:
   * `lits[0] {names[0]} lits[1] … {names[n - 1]} lits[n]`.
   */
  function Template(lits: seq<string>, names: seq<string>): string
    requires |lits| == |names| + 1
    decreases |names|
  {
    if names == [] then lits[0]
    else lits[0] + ("{" + names[0] + "}") + Template(lits[1..], names[1..])
  }

  /** The same literal text with each token replaced by what it resolves to in `vars`. */
  function Filled(lits: seq<string>, names: seq<string>, vars: Vars): string
    requires |lits| == |names| + 1
    decreases |names|
  {
    if names == [] then lits[0]
    else lits[0] + Resolve(Token(names[0]), vars) + Filled(lits[1..], names[1..], vars)
  }

  /**
   * A template whose every `{` opens a well-formed `{name}`: the literal text
   * is kept and every token is resolved, whatever the number and order of
   * the tokens.
   */
  lemma {:induction false} FillTemplate(lits: seq<string>, names: seq<string>, vars: Vars)
    requires |lits| == |names| + 1
    requires forall i :: 0 <= i < |lits| ==> '{' !in lits[i]
    requires forall i :: 0 <= i < |names| ==> PlainName(names[i])
    ensures Fill(Template(lits, names), vars) == Filled(lits, names, vars)
    decreases |names|
  {
    if names == [] {
      FillPlain(lits[0], vars);
    } else {
      assert '{' !in lits[0] && PlainName(names[0]);
      assert forall i :: 0 <= i < |lits| - 1 ==> lits[1..][i] == lits[i + 1];
      assert forall i :: 0 <= i < |names| - 1 ==> names[1..][i] == names[i + 1];
      FillTemplate(lits[1..], names[1..], vars);
      FillTokenAfter(lits[0], names[0], Template(lits[1..], names[1..]), vars);
    }
  }

  /** Regrouping a concatenation of three strings. */
  lemma {:induction false} ConcatAssoc(x: string, y: string, z: string)
    ensures x + (y + z) == x + y + z
  {
  }

  /** A well-formed `{name}` at the start is matched as one token and resolved against `vars`. */
  lemma {:induction false} FillToken(name: string, rest: string, vars: Vars)
    requires PlainName(name)
    ensures Fill("{" + name + "}" + rest, vars) == Resolve(Token(name), vars) + Fill(rest, vars)
  {
    var s := "{" + name + "}" + rest;
    assert s[1..] == name + "}" + rest;
    NameLengthOf(name, rest);
    TokenizeMatch(s);
    assert s[1..|name| + 1] == name;
    assert s[|name| + 2..] == rest;
    ExpandCons(Token(name), Tokenize(rest), vars);
  }
}
