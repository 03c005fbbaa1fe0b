/** One breadcrumb: a PHP array of named variables, always holding `text` and `link`. */
module Crumb {
  import opened Wrappers
  import opened PhpArrays

  /** The extra variables given to the constructor; `null` and `[]` both mean none. */
  function ExtraVars(extra: Option<Vars>): Vars {
    extra.GetOr(map[])
  }

  /**
   * The variables a new breadcrumb starts with: the extra variables, with
   * `text` and `link` forced to the constructor's arguments (a `null` link
   * is stored as a `link` key holding `null`).
   */
  function InitialVars(text: string, link: Option<string>, extra: Option<Vars>): (v: Vars)
    ensures "text" in v && v["text"] == Some(text)
    ensures "link" in v && v["link"] == link
  {
    ExtraVars(extra)["text" := Some(text)]["link" := link]
  }

  /**
   * A new breadcrumb's `text` and `link` are the constructor's arguments even
   * when the extra variables name them too; every other extra variable is
   * kept as given, and nothing else is added.
   */
  lemma InitialVarsSpec(text: string, link: Option<string>, extra: Option<Vars>)
    ensures var v := InitialVars(text, link, extra);
      && v.Keys == ExtraVars(extra).Keys + {"text", "link"}
      && v["text"] == Some(text) && v["link"] == link
      && forall k :: k in ExtraVars(extra) && k != "text" && k != "link" ==> v[k] == ExtraVars(extra)[k]
  {
  }

  class Breadcrumb {
    /** The breadcrumb's variables; only `isset` lookups read them, so key order is not kept. */
    var vars: Vars

    /** `new Breadcrumb($text, $link, $vars)`. */
    constructor (text: string, link: Option<string>, extra: Option<Vars>)
      ensures vars == InitialVars(text, link, extra)
      ensures GetVar("text") == Some(text) && GetVar("link") == link
    {
      var v := ExtraVars(extra);
      v := v["text" := Some(text)];
      v := v["link" := link];
      vars := map[];
      new;
      SetVars(v);
      UnionEmptyLeft(v);
      InitialVarsSpec(text, link, extra);
    }

    /** `getVar`: the value of `name`, `null` when it is absent or holds `null`. */
    function GetVar(name: string): (r: Option<string>)
      reads this
      ensures r.None? <==> name !in vars || vars[name].None?
      ensures r.Some? ==> vars[name] == r
    {
      Get(vars, name)
    }

    /** `getVars`: the whole variable array, the one `getVar` reads from. */
    function GetVars(): (r: Vars)
      reads this
      ensures forall k :: Get(r, k) == GetVar(k)
    {
      vars
    }

    /** `setVar`: stores `val` under `name` and leaves every other key as it was. */
    method SetVar(name: string, val: Option<string>)
      modifies this
      ensures vars == old(vars)[name := val]
      ensures GetVar(name) == val
      ensures forall k :: k != name ==> GetVar(k) == old(GetVar(k))
    {
      vars := vars[name := val];
    }

    /**
     * `setVars`: `$this->vars += $m`. Keys already present keep their
     * values, keys only in `m` are added, and no key is removed.
     */
    method SetVars(m: Vars)
      modifies this
      ensures vars == Union(old(vars), m)
      ensures forall k :: k in old(vars) ==> k in vars && vars[k] == old(vars)[k]
      ensures forall k :: k in m && k !in old(vars) ==> k in vars && vars[k] == m[k]
      ensures vars.Keys == old(vars).Keys + m.Keys
    {
      vars := Union(vars, m);
    }
  }
}
