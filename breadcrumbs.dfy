/**
 * The breadcrumb trail: an ordered list of breadcrumbs, four templates, the
 * list operations, the path splitter and the renderer.
 */
module Trail {
  import opened Wrappers
  import opened PhpStrings
  import opened PhpArrays
  import opened Placeholders
  import opened Crumb

  // The defaults are written as concatenations around their tokens.
  const DefaultBreadcrumbsHtml: string := "<p class=\"breadcrumbs\">" + "{breadcrumbs}" + "</p>"
  const DefaultBreadcrumbHtml: string :=
    "<span class=\"breadcrumb\"><a href=\"" + "{link}" + "\">" + "{text}" + "</a></span>"
  const DefaultActiveBreadcrumbHtml: string :=
    "<span class=\"breadcrumb active_breadcrumb\">" + "{breadcrumb}" + "</span>"
  const DefaultSeparatorHtml: string := "<span class=\"breadcrumb_separator\"> &raquo; </span>"

  /** The four templates: around the trail, around a linked item, around the active item, between items. */
  datatype Templates = Templates(wrapper: string, item: string, active: string, separator: string)

  const Defaults := Templates(DefaultBreadcrumbsHtml, DefaultBreadcrumbHtml, DefaultActiveBreadcrumbHtml, DefaultSeparatorHtml)

  /** The tokens each template setter demands; the separator demands none. */
  const WrapperTokens: seq<string> := ["{breadcrumbs}"]
  const ItemTokens: seq<string> := ["{text}", "{link}"]
  const ActiveTokens: seq<string> := ["{breadcrumb}"]

  /** `html` contains every one of `tokens`. */
  ghost predicate HasAll(html: string, tokens: seq<string>) {
    forall i :: 0 <= i < |tokens| ==> Contains(html, tokens[i])
  }

  /** Every template holds the tokens its setter demands. */
  ghost predicate ValidTemplates(t: Templates) {
    HasAll(t.wrapper, WrapperTokens) && HasAll(t.item, ItemTokens) && HasAll(t.active, ActiveTokens)
  }

  /** A template written around one token holds it. */
  lemma HasOne(a: string, x: string, b: string)
    ensures HasAll(a + x + b, [x])
  {
    OccursAfter(a, x, b);
  }

  /** A template written around two tokens holds both. */
  lemma HasTwo(a: string, x: string, b: string, y: string, c: string)
    ensures HasAll(a + x + b + y + c, [y, x])
  {
    OccursAfter(a, x, b + y + c);
    assert a + x + (b + y + c) == a + x + b + y + c;
    OccursAfter(a + x + b, y, c);
  }

  /** The default templates hold every token their setters demand. */
  lemma DefaultsValid()
    ensures ValidTemplates(Defaults)
  {
    HasOne("<p class=\"breadcrumbs\">", "{breadcrumbs}", "</p>");
    HasTwo("<span class=\"breadcrumb\"><a href=\"", "{link}", "\">", "{text}", "</a></span>");
    HasOne("<span class=\"breadcrumb active_breadcrumb\">", "{breadcrumb}", "</span>");
  }

  /**
   * The text one breadcrumb renders to: with a truthy `link`, the item
   * template with its `{name}` tokens filled from the variables; otherwise
   * the active template with `{breadcrumb}` replaced by `text` (`null` as "").
   */
  function Fragment(t: Templates, v: Vars): (r: string)
    ensures Truthy(Get(v, "link")) && '{' !in t.item ==> r == t.item
    ensures !Truthy(Get(v, "link")) && !Contains(t.active, "{breadcrumb}") ==> r == t.active
    ensures !Truthy(Get(v, "link")) && Contains(t.active, "{breadcrumb}") ==> Contains(r, Get(v, "text").GetOr(""))
  {
    if Truthy(Get(v, "link")) then
      assert '{' !in t.item ==> Fill(t.item, v) == t.item by {
        if '{' !in t.item {
          FillPlain(t.item, v);
        }
      }
      Fill(t.item, v)
    else
      var text := Get(v, "text").GetOr("");
      assert !Contains(t.active, "{breadcrumb}") ==> StrReplace("{breadcrumb}", text, t.active) == t.active by {
        if !Contains(t.active, "{breadcrumb}") {
          StrReplaceAbsent("{breadcrumb}", text, t.active);
        }
      }
      assert Contains(t.active, "{breadcrumb}") ==> Contains(StrReplace("{breadcrumb}", text, t.active), text) by {
        if Contains(t.active, "{breadcrumb}") {
          StrReplaceInserts("{breadcrumb}", text, t.active);
        }
      }
      StrReplace("{breadcrumb}", text, t.active)
  }

  /** The fragments of a list of breadcrumbs, in order. */
  function Fragments(t: Templates, vs: seq<Vars>): (r: seq<string>)
  {
    seq(|vs|, i requires 0 <= i < |vs| => Fragment(t, vs[i]))
  }

  /**
   * `getBreadcrumbsHtml`: the wrapper with `{breadcrumbs}` replaced by the
   * fragments joined with the separator. An empty list has no fragment array
   * to implode, which PHP 8 rejects with a TypeError: `None`.
   */
  function Render(t: Templates, vs: seq<Vars>): (r: Option<string>)
    ensures r.None? <==> vs == []
    ensures vs != [] && !Contains(t.wrapper, "{breadcrumbs}") ==> r == Some(t.wrapper)
    ensures vs != [] && Contains(t.wrapper, "{breadcrumbs}") ==> Contains(r.value, Implode(t.separator, Fragments(t, vs)))
  {
    if vs == [] then None
    else
      var joined := Implode(t.separator, Fragments(t, vs));
      assert !Contains(t.wrapper, "{breadcrumbs}") ==> StrReplace("{breadcrumbs}", joined, t.wrapper) == t.wrapper by {
        if !Contains(t.wrapper, "{breadcrumbs}") {
          StrReplaceAbsent("{breadcrumbs}", joined, t.wrapper);
        }
      }
      assert Contains(t.wrapper, "{breadcrumbs}") ==> Contains(StrReplace("{breadcrumbs}", joined, t.wrapper), joined) by {
        if Contains(t.wrapper, "{breadcrumbs}") {
          StrReplaceInserts("{breadcrumbs}", joined, t.wrapper);
        }
      }
      Some(StrReplace("{breadcrumbs}", joined, t.wrapper))
  }

  /**
   * A wrapper holding `{breadcrumbs}` once, with no `{` around it, renders
   * as the text before it, the joined fragments, and the text after it.
   */
  lemma {:induction false} RenderWrapped(t: Templates, vs: seq<Vars>, before: string, after: string)
    requires vs != []
    requires t.wrapper == before + "{breadcrumbs}" + after
    requires '{' !in before && '{' !in after
    ensures Render(t, vs) == Some(before + Implode(t.separator, Fragments(t, vs)) + after)
  {
    StrReplaceOnce("{breadcrumbs}", Implode(t.separator, Fragments(t, vs)), before, after);
  }

  /** The default wrapper puts the joined fragments inside `<p class="breadcrumbs">…</p>`. */
  lemma {:induction false} RenderDefault(t: Templates, vs: seq<Vars>)
    requires vs != [] && t.wrapper == DefaultBreadcrumbsHtml
    ensures Render(t, vs) == Some("<p class=\"breadcrumbs\">" + Implode(t.separator, Fragments(t, vs)) + "</p>")
  {
    RenderWrapped(t, vs, "<p class=\"breadcrumbs\">", "</p>");
  }

  /**
   * A linked breadcrumb renders through the item template: for any item
   * template whose every `{` opens a well-formed `{name}`, the literal text
   * is kept and each token becomes the breadcrumb's variable of that name
   * (an unset or `null` one stays as written).
   */
  lemma {:induction false} LinkedFragment(t: Templates, v: Vars, lits: seq<string>, names: seq<string>)
    requires Truthy(Get(v, "link"))
    requires |lits| == |names| + 1 && t.item == Template(lits, names)
    requires forall i :: 0 <= i < |lits| ==> '{' !in lits[i]
    requires forall i :: 0 <= i < |names| ==> PlainName(names[i])
    ensures Fragment(t, v) == Filled(lits, names, v)
  {
    FillTemplate(lits, names, v);
  }

  /** With the default item template a linked breadcrumb renders as an anchor to its link around its text. */
  lemma {:induction false} DefaultLinkedFragment(t: Templates, v: Vars)
    requires Truthy(Get(v, "link")) && t.item == DefaultBreadcrumbHtml
    ensures Fragment(t, v) ==
      "<span class=\"breadcrumb\"><a href=\"" + Get(v, "link").value + "\">" + Resolve(Token("text"), v) + "</a></span>"
  {
    var a, b, c := "<span class=\"breadcrumb\"><a href=\"", "\">", "</a></span>";
    var link, text := "{" + "link" + "}", "{" + "text" + "}";
    assert link == "{link}" && text == "{text}";
    assert t.item == a + link + (b + text + c);
    FillTwoTokens(a, "link", b, "text", c, v);
  }

  /** With the default active template an unlinked breadcrumb renders its text in the active span. */
  lemma {:induction false} DefaultActiveFragment(t: Templates, v: Vars)
    requires !Truthy(Get(v, "link")) && t.active == DefaultActiveBreadcrumbHtml
    ensures Fragment(t, v) ==
      "<span class=\"breadcrumb active_breadcrumb\">" + Get(v, "text").GetOr("") + "</span>"
  {
    StrReplaceOnce("{breadcrumb}", Get(v, "text").GetOr(""),
      "<span class=\"breadcrumb active_breadcrumb\">", "</span>");
  }

  /**
   * An item template holding `{{link}` contains `{link}`, but the scan takes
   * the first `{` as the opening one and captures the name `{link`: the
   * breadcrumb's link is never put in, and without a variable named `{link`
   * the token stays as written.
   */
  lemma {:induction false} LinkSwallowed(t: Templates, v: Vars)
    requires Truthy(Get(v, "link")) && t.item == "{{link}{text}" && Get(v, "{link").None?
    ensures Fragment(t, v) == "{{link}" + Resolve(Token("text"), v)
  {
    var lits, names := ["", "", ""], ["{link", "text"];
    assert Template(lits[2..], names[2..]) == "";
    assert Template(lits[1..], names[1..]) == "{text}";
    assert Template(lits, names) == "{{link}{text}";
    assert Filled(lits[2..], names[2..], v) == "";
    assert Filled(lits, names, v) == "{{link}" + Resolve(Token("text"), v);
    LinkedFragment(t, v, lits, names);
  }

  /** The pieces of a path: `explode('/', trim($url, '/'))`. */
  function UrlParts(url: string): (parts: seq<string>)
    ensures |parts| >= 1
  {
    Explode(Trim(url, '/'), "/")
  }

  /** A path always splits into at least one piece, and no piece contains `/`. */
  lemma UrlPartsFree(url: string)
    ensures var parts := UrlParts(url);
      |parts| >= 1 && forall i :: 0 <= i < |parts| ==> '/' !in parts[i]
  {
    var parts := UrlParts(url);
    ExplodePiecesFree(Trim(url, '/'), "/");
    forall i | 0 <= i < |parts| ensures '/' !in parts[i] {
      ContainsChar(parts[i], '/');
    }
  }

  /** The running link after the given pieces: `/`, then each piece followed by `/`. */
  function UrlPrefix(parts: seq<string>): (r: string)
    ensures |r| >= 1 && r[0] == '/' && r[|r| - 1] == '/'
    ensures parts != [] ==> |r| >= 2
  {
    if parts == [] then "/" else UrlPrefix(parts[..|parts| - 1]) + parts[|parts| - 1] + "/"
  }

  /** The link of the `i`th breadcrumb made from a path: the running link, `null` for the last. */
  function CrumbLink(parts: seq<string>, i: nat): (r: Option<string>)
    requires i < |parts|
    ensures r.None? <==> i == |parts| - 1
    ensures r.Some? ==> |r.value| >= 2 && r.value[0] == '/' && r.value[|r.value| - 1] == '/'
  {
    if i == |parts| - 1 then None else Some(UrlPrefix(parts[..i + 1]))
  }

  /** Appending one piece to the running link gives the link over one more piece. */
  lemma {:induction false} UrlPrefixStep(parts: seq<string>, i: nat)
    requires i < |parts|
    ensures UrlPrefix(parts[..i + 1]) == UrlPrefix(parts[..i]) + parts[i] + "/"
  {
    assert parts[..i + 1][..i] == parts[..i];
  }

  /** The running link over some pieces is those pieces joined with `/`, between slashes. */
  lemma {:induction false} UrlPrefixJoins(parts: seq<string>)
    requires parts != []
    ensures UrlPrefix(parts) == "/" + Implode("/", parts) + "/"
  {
    var init := parts[..|parts| - 1];
    assert init + [parts[|parts| - 1]] == parts;
    if |parts| > 1 {
      UrlPrefixJoins(init);
      ImplodeSnoc("/", init, parts[|parts| - 1]);
    } else {
      assert UrlPrefix(parts) == "/" + parts[0] + "/";
    }
  }

  /** Each non-final breadcrumb links to `/` + the first `i + 1` pieces joined with `/` + `/`. */
  lemma {:induction false} CrumbLinkJoins(parts: seq<string>, i: nat)
    requires i + 1 < |parts|
    ensures CrumbLink(parts, i) == Some("/" + Implode("/", parts[..i + 1]) + "/")
  {
    UrlPrefixJoins(parts[..i + 1]);
  }

  /** Running the link over every piece rebuilds the trimmed path between slashes. */
  lemma {:induction false} UrlPrefixRebuildsPath(url: string)
    ensures UrlPrefix(UrlParts(url)) == "/" + Trim(url, '/') + "/"
  {
    UrlPrefixJoins(UrlParts(url));
  }

  /** Each breadcrumb's link extends the links before it. */
  lemma {:induction false} UrlPrefixExtends(parts: seq<string>, i: nat, j: nat)
    requires i <= j <= |parts|
    ensures |UrlPrefix(parts[..i])| <= |UrlPrefix(parts[..j])|
    ensures UrlPrefix(parts[..j])[..|UrlPrefix(parts[..i])|] == UrlPrefix(parts[..i])
    decreases j - i
  {
    if i < j {
      UrlPrefixExtends(parts, i, j - 1);
      assert parts[..j][..j - 1] == parts[..j - 1];
      var p, q := UrlPrefix(parts[..i]), UrlPrefix(parts[..j - 1]);
      assert UrlPrefix(parts[..j]) == q + (parts[j - 1] + "/");
      assert UrlPrefix(parts[..j])[..|p|] == q[..|p|];
    }
  }

  /**
   * A path made of pieces without `/` (the first and the last non-empty)
   * with a slash before and after splits back into exactly those pieces.
   */
  lemma {:induction false} UrlPartsRoundTrip(parts: seq<string>)
    requires |parts| >= 1 && parts[0] != [] && parts[|parts| - 1] != []
    requires forall i :: 0 <= i < |parts| ==> '/' !in parts[i]
    ensures UrlParts("/" + Implode("/", parts) + "/") == parts
  {
    var s := Implode("/", parts);
    var url := "/" + s + "/";
    var first, last := parts[0], parts[|parts| - 1];
    FirstPieceIsPrefix("/", parts);
    LastPieceIsSuffix("/", parts);
    assert first[0] in first && last[|last| - 1] in last;
    assert s[0] == first[0] && s[|s| - 1] == last[|last| - 1];
    TrimAround(s, '/');
    ExplodeImplode(parts, '/');
  }

  /** The variables of the `i`th breadcrumb made from the pieces of a path. */
  function FromUrl(parts: seq<string>, textOf: string -> string, i: nat): Vars
    requires i < |parts|
  {
    InitialVars(textOf(parts[i]), CrumbLink(parts, i), None)
  }

  /** Every breadcrumb made from a path is linked except the last one. */
  lemma {:induction false} FromUrlLinked(parts: seq<string>, textOf: string -> string, j: nat)
    requires j < |parts|
    ensures Truthy(Get(FromUrl(parts, textOf, j), "link")) <==> j < |parts| - 1
  {
    InitialVarsSpec(textOf(parts[j]), CrumbLink(parts, j), None);
    if j < |parts| - 1 {
      CrumbLinkJoins(parts, j);
    }
  }

  /**
   * With the default templates, a path's breadcrumbs render as anchors to the
   * running links, the last one as the active span: `/shoes/mens/` gives a
   * link to `/shoes/` and the active `mens`.
   */
  lemma {:induction false} FromUrlFragment(t: Templates, parts: seq<string>, textOf: string -> string, j: nat)
    requires j < |parts|
    requires t.item == DefaultBreadcrumbHtml && t.active == DefaultActiveBreadcrumbHtml
    ensures j < |parts| - 1 ==>
      Fragment(t, FromUrl(parts, textOf, j)) ==
      "<span class=\"breadcrumb\"><a href=\"" + ("/" + Implode("/", parts[..j + 1]) + "/") + "\">" + textOf(parts[j]) + "</a></span>"
    ensures j == |parts| - 1 ==>
      Fragment(t, FromUrl(parts, textOf, j)) ==
      "<span class=\"breadcrumb active_breadcrumb\">" + textOf(parts[j]) + "</span>"
  {
    var v := FromUrl(parts, textOf, j);
    FromUrlLinked(parts, textOf, j);
    InitialVarsSpec(textOf(parts[j]), CrumbLink(parts, j), None);
    assert Get(v, "text") == Some(textOf(parts[j]));
    if j < |parts| - 1 {
      CrumbLinkJoins(parts, j);
      DefaultLinkedFragment(t, v);
    } else {
      DefaultActiveFragment(t, v);
    }
  }

  /** The variables of each breadcrumb, in list order. */
  function VarsOf(s: seq<Breadcrumb>): (r: seq<Vars>)
    reads s
    ensures |r| == |s| && forall i :: 0 <= i < |s| ==> r[i] == s[i].vars
  {
    if s == [] then [] else VarsOf(s[..|s| - 1]) + [s[|s| - 1].vars]
  }

  class Breadcrumbs {
    var items: seq<Breadcrumb>
    var breadcrumbsHtml: string
    var breadcrumbHtml: string
    var activeBreadcrumbHtml: string
    var separatorHtml: string

    /** The templates as one value. */
    function CurrentTemplates(): Templates
      reads this
    {
      Templates(breadcrumbsHtml, breadcrumbHtml, activeBreadcrumbHtml, separatorHtml)
    }

    /** Every template holds the tokens its setter demands. */
    ghost predicate Valid()
      reads this
    {
      ValidTemplates(CurrentTemplates())
    }

    /** A new trail: no breadcrumbs and the default templates. */
    constructor ()
      ensures Valid() && items == [] && CurrentTemplates() == Defaults
    {
      items := [];
      breadcrumbsHtml := DefaultBreadcrumbsHtml;
      breadcrumbHtml := DefaultBreadcrumbHtml;
      activeBreadcrumbHtml := DefaultActiveBreadcrumbHtml;
      separatorHtml := DefaultSeparatorHtml;
      new;
      DefaultsValid();
    }

    /**
     * `checkRequiredHtmlText`: true exactly when `html` contains every
     * required token; it stops at the first missing one.
     */
    method CheckRequiredHtmlText(required: seq<string>, html: string) returns (ok: bool)
      ensures ok <==> HasAll(html, required)
    {
      for i := 0 to |required|
        invariant forall j :: 0 <= j < i ==> Contains(html, required[j])
      {
        if StrPos(html, required[i]).None? {
          return false;
        }
      }
      return true;
    }

    /** `setBreadcrumbsHtml`: stores `html` when it contains `{breadcrumbs}`; otherwise fails and keeps the old one. */
    method SetBreadcrumbsHtml(html: string) returns (ok: bool)
      requires Valid()
      modifies this
      ensures Valid()
      ensures ok <==> Contains(html, "{breadcrumbs}")
      ensures CurrentTemplates() == old(CurrentTemplates()).(wrapper := if ok then html else old(breadcrumbsHtml))
      ensures items == old(items)
    {
      ok := CheckRequiredHtmlText(WrapperTokens, html);
      assert WrapperTokens[0] == "{breadcrumbs}";
      if ok {
        breadcrumbsHtml := html;
      }
    }

    /** `setBreadcrumbHtml`: stores `html` when it contains `{text}` and `{link}`; otherwise fails and keeps the old one. */
    method SetBreadcrumbHtml(html: string) returns (ok: bool)
      requires Valid()
      modifies this
      ensures Valid()
      ensures ok <==> Contains(html, "{text}") && Contains(html, "{link}")
      ensures CurrentTemplates() == old(CurrentTemplates()).(item := if ok then html else old(breadcrumbHtml))
      ensures items == old(items)
    {
      ok := CheckRequiredHtmlText(ItemTokens, html);
      assert ItemTokens[0] == "{text}" && ItemTokens[1] == "{link}";
      if ok {
        breadcrumbHtml := html;
      }
    }

    /** `setActiveBreadcrumbHtml`: stores `html` when it contains `{breadcrumb}`; otherwise fails and keeps the old one. */
    method SetActiveBreadcrumbHtml(html: string) returns (ok: bool)
      requires Valid()
      modifies this
      ensures Valid()
      ensures ok <==> Contains(html, "{breadcrumb}")
      ensures CurrentTemplates() == old(CurrentTemplates()).(active := if ok then html else old(activeBreadcrumbHtml))
      ensures items == old(items)
    {
      ok := CheckRequiredHtmlText(ActiveTokens, html);
      assert ActiveTokens[0] == "{breadcrumb}";
      if ok {
        activeBreadcrumbHtml := html;
      }
    }

    /** `setBreadcrumbSeparatorHtml`: always stores `html`. */
    method SetBreadcrumbSeparatorHtml(html: string)
      requires Valid()
      modifies this
      ensures Valid()
      ensures CurrentTemplates() == old(CurrentTemplates()).(separator := html)
      ensures items == old(items)
    {
      separatorHtml := html;
    }

    /** `getBreadcrumbCount`: the number of breadcrumbs in the list. */
    function Count(): (n: nat)
      reads this
      ensures n == |items|
    {
      |items|
    }

    /** `getBreadcrumb`: the breadcrumb at `position` when that index is set, `false` (`None`) otherwise. */
    function GetBreadcrumb(position: int): (r: Option<Breadcrumb>)
      reads this
      ensures r.Some? <==> 0 <= position < Count()
      ensures r.Some? ==> r.value == items[position]
    {
      if 0 <= position < |items| then Some(items[position]) else None
    }

    /** `getBreadcrumbs`: the whole list, agreeing position by position with `getBreadcrumb`. */
    function GetBreadcrumbs(): (r: seq<Breadcrumb>)
      reads this
      ensures |r| == Count()
      ensures forall i :: 0 <= i < |r| ==> GetBreadcrumb(i) == Some(r[i])
    {
      items
    }

    /** `addBreadcrumb`: appends a new breadcrumb and returns it. */
    method AddBreadcrumb(text: string, link: Option<string>, extra: Option<Vars>) returns (b: Breadcrumb)
      modifies this
      ensures fresh(b) && b.vars == InitialVars(text, link, extra)
      ensures items == old(items) + [b]
      ensures CurrentTemplates() == old(CurrentTemplates())
    {
      b := new Breadcrumb(text, link, extra);
      items := items + [b];
    }

    /**
     * `addBreadcrumbsFromUrl`: one new breadcrumb per piece of the path, with
     * the piece passed through `textOf` as text and the running link as
     * link, except that the last one has no link. Earlier breadcrumbs stay.
     */
    method AddBreadcrumbsFromUrl(url: string, textOf: string -> string)
      modifies this
      ensures var parts, n := UrlParts(url), |old(items)|;
        && |items| == n + |parts|
        && items[..n] == old(items)
        && forall j :: 0 <= j < |parts| ==> fresh(items[n..][j]) && items[n..][j].vars == FromUrl(parts, textOf, j)
      ensures forall i :: 0 <= i < |old(items)| ==> items[i].vars == old(items[i].vars)
      ensures CurrentTemplates() == old(CurrentTemplates())
    {
      AddBreadcrumbsFromParts(UrlParts(url), textOf);
    }

    /** The loop of `addBreadcrumbsFromUrl`, over the pieces of the path. */
    method AddBreadcrumbsFromParts(urlParts: seq<string>, textOf: string -> string)
      modifies this
      ensures var n := |old(items)|;
        && |items| == n + |urlParts|
        && items[..n] == old(items)
        && forall j :: 0 <= j < |urlParts| ==> fresh(items[n..][j]) && items[n..][j].vars == FromUrl(urlParts, textOf, j)
      ensures forall i :: 0 <= i < |old(items)| ==> items[i].vars == old(items[i].vars)
      ensures CurrentTemplates() == old(CurrentTemplates())
    {
      var currentUrl := "/";
      ghost var added: seq<Breadcrumb> := [];
      for index := 0 to |urlParts|
        invariant items == old(items) + added && |added| == index
        invariant currentUrl == UrlPrefix(urlParts[..index])
        invariant forall j :: 0 <= j < |added| ==>
          fresh(added[j]) && added[j].vars == FromUrl(urlParts, textOf, j)
        invariant CurrentTemplates() == old(CurrentTemplates())
      {
        UrlPrefixStep(urlParts, index);
        currentUrl := currentUrl + urlParts[index] + "/";
        var link := if index == |urlParts| - 1 then None else Some(currentUrl);
        assert link == CrumbLink(urlParts, index);
        ghost var before := added;
        var b := AddBreadcrumb(textOf(urlParts[index]), link, None);
        assert b.vars == FromUrl(urlParts, textOf, index);
        added := added + [b];
        assert forall j :: 0 <= j < index ==> added[j] == before[j];
      }
      assert items[|old(items)|..] == added;
    }

    /**
     * `insertBreadcrumb`: outside `0..count` returns false and changes
     * nothing; inside, puts a new breadcrumb at `position` and returns true.
     */
    method InsertBreadcrumb(position: int, text: string, link: Option<string>, extra: Option<Vars>) returns (ok: bool)
      modifies this
      ensures ok <==> 0 <= position <= old(Count())
      ensures !ok ==> items == old(items)
      ensures ok ==>
        && Count() == old(Count()) + 1
        && fresh(items[position]) && items[position].vars == InitialVars(text, link, extra)
        && items == old(items)[..position] + [items[position]] + old(items)[position..]
      ensures CurrentTemplates() == old(CurrentTemplates())
    {
      if position < 0 || position > |items| {
        return false;
      }
      var b := new Breadcrumb(text, link, extra);
      SpliceInsert(items, position, b);
      items := Splice(items, position, 0, [b]).list;
      return true;
    }

    /**
     * `deleteBreadcrumb`: `array_splice($items, $position, 1)`. At an index of
     * the list it removes and returns that breadcrumb; at or past the end it
     * returns nothing and changes nothing; a negative position counts from the end.
     */
    method DeleteBreadcrumb(position: int) returns (removed: seq<Breadcrumb>)
      modifies this
      ensures Splice(old(items), position, 1, []) == Spliced(removed, items)
      ensures 0 <= position < |old(items)| ==>
        removed == [old(items)[position]] && items == old(items)[..position] + old(items)[position + 1..]
      ensures position >= |old(items)| ==> removed == [] && items == old(items)
      ensures CurrentTemplates() == old(CurrentTemplates())
    {
      var r := Splice(items, position, 1, []);
      if 0 <= position < |items| {
        SpliceRemoveAt(items, position, []);
      } else if position >= |items| {
        SplicePastEnd(items, position, 1, []);
      }
      removed, items := r.removed, r.list;
    }

    /**
     * `replaceBreadcrumb`: `array_splice($items, $position, 1, [new])`. At an
     * index of the list only that breadcrumb changes and the old one is
     * returned; at or past the end the new breadcrumb is appended and nothing
     * is returned; a negative position counts from the end.
     */
    method ReplaceBreadcrumb(position: int, text: string, link: Option<string>, extra: Option<Vars>)
      returns (removed: seq<Breadcrumb>)
      modifies this
      ensures var o := SpliceOffset(|old(items)|, position);
        && o < |items| && fresh(items[o]) && items[o].vars == InitialVars(text, link, extra)
        && Splice(old(items), position, 1, items[o..o + 1]) == Spliced(removed, items)
      ensures 0 <= position < |old(items)| ==>
        && removed == [old(items)[position]] && |items| == |old(items)|
        && items[..position] == old(items)[..position] && items[position + 1..] == old(items)[position + 1..]
      ensures position >= |old(items)| ==> removed == [] && items[..|old(items)|] == old(items)
      ensures CurrentTemplates() == old(CurrentTemplates())
    {
      var b := new Breadcrumb(text, link, extra);
      removed, items := SpliceOne(items, position, b);
    }

    /**
     * `getBreadcrumbsHtml`: renders every breadcrumb in order, joins the
     * fragments and puts them in the wrapper; `None` for an empty list.
     */
    method GetBreadcrumbsHtml() returns (html: Option<string>)
      ensures html == Render(CurrentTemplates(), VarsOf(items))
    {
      var fragments: seq<string> := [];
      for i := 0 to |items|
        invariant |fragments| == i
        invariant forall j :: 0 <= j < i ==> fragments[j] == Fragment(CurrentTemplates(), items[j].vars)
      {
        var b := items[i];
        var fragment;
        if Truthy(b.GetVar("link")) {
          fragment := Fill(breadcrumbHtml, b.GetVars());
        } else {
          fragment := StrReplace("{breadcrumb}", b.GetVar("text").GetOr(""), activeBreadcrumbHtml);
        }
        fragments := fragments + [fragment];
      }
      if |items| == 0 {
        return None;
      }
      assert fragments == Fragments(CurrentTemplates(), VarsOf(items));
      html := Some(StrReplace("{breadcrumbs}", Implode(separatorHtml, fragments), breadcrumbsHtml));
    }
  }
}
