/** The brush registry of shCore.js: `sh.brushes`, keyed by brush name in registration
    order, and the alias index `findBrush` builds on its first call and keeps in
    `sh.vars.discoveredBrushes`; and the `sh.HtmlScript` constructor, which looks up the
    embedded language's brush and appends the html-script rule to the XML brush. */
module Registry {
  import opened Wrappers
  import opened Rules

  /** A registered brush: its static `aliases` (None when null), the `brushName`
      `findBrush` records on it, and what `new` makes of it: its rules and its
      `htmlScript` descriptor (None when null). */
  datatype Brush = Brush(aliases: Option<seq<string>>, brushName: Option<string>,
                         rules: seq<BrushRule>, htmlScript: Option<HtmlScriptDesc>)

  /** `sh.config.strings.noBrush` */
  const NoBrush := "Can't find brush for: "

  /** `sh.config.strings.brushNotHtmlScript` */
  const BrushNotHtmlScript := "Brush wasn't configured for html-script option: "

  /** `toLowerCase` on ASCII letters. */
  function ToLower(s: string): (r: string)
    ensures |r| == |s|
    ensures forall k :: 0 <= k < |s| ==> r[k] == (if 'A' <= s[k] <= 'Z' then (s[k] as int + 32) as char else s[k])
  {
    if |s| == 0 then ""
    else [if 'A' <= s[0] <= 'Z' then (s[0] as int + 32) as char else s[0]] + ToLower(s[1..])
  }

  /** `aliases.forEach(function(aliase) { brushes[aliase] = brush; })` */
  function AddAliases(index: map<string, string>, aliases: seq<string>, name: string): (r: map<string, string>)
    ensures r.Keys == index.Keys + set a | a in aliases
    ensures forall a :: a in aliases ==> r[a] == name
    ensures forall a :: a in index && a !in aliases ==> r[a] == index[a]
    decreases |aliases|
  {
    if |aliases| == 0 then index
    else
      var init := aliases[..|aliases| - 1];
      assert forall a :: a in aliases <==> a in init || a == aliases[|aliases| - 1];
      AddAliases(index, init, name)[aliases[|aliases| - 1] := name]
  }

  /** The alias index over the brushes `names` lists, in that order: each alias of a brush
      that has aliases points to the brush's key, a later brush overwriting an earlier one. */
  function BuildIndex(names: seq<string>, brushes: map<string, Brush>): (index: map<string, string>)
    requires forall n :: n in names ==> n in brushes
    ensures forall a :: a in index ==>
      index[a] in names && brushes[index[a]].aliases.Some? && a in brushes[index[a]].aliases.value
    ensures forall n, a :: n in names && brushes[n].aliases.Some? && a in brushes[n].aliases.value ==> a in index
    decreases |names|
  {
    if |names| == 0 then map[]
    else
      var init := names[..|names| - 1];
      var n := names[|names| - 1];
      assert forall m :: m in names <==> m in init || m == n;
      var index := BuildIndex(init, brushes);
      match brushes[n].aliases
      case None => index
      case Some(aliases) => AddAliases(index, aliases, n)
  }

  /** The index depends on the brushes' aliases only. */
  lemma {:induction false} BuildIndexAliases(names: seq<string>, b1: map<string, Brush>, b2: map<string, Brush>)
    requires forall n :: n in names ==> n in b1 && n in b2 && b1[n].aliases == b2[n].aliases
    ensures BuildIndex(names, b1) == BuildIndex(names, b2)
    decreases |names|
  {
    if |names| > 0 {
      var init := names[..|names| - 1];
      assert forall m :: m in init ==> m in names;
      BuildIndexAliases(init, b1, b2);
    }
  }

  /** The brushes after the index was built: every brush with aliases has its key, in
      lower case, as `brushName`. */
  function Named(names: seq<string>, brushes: map<string, Brush>): (r: map<string, Brush>)
    ensures r.Keys == brushes.Keys
    ensures forall n :: n in brushes ==> r[n].aliases == brushes[n].aliases
  {
    map n | n in brushes :: if n in names && brushes[n].aliases.Some? then brushes[n].(brushName := Some(ToLower(n))) else brushes[n]
  }

  /** `sh.brushes[brushes[alias]]` for an alias the index holds; an alias the index lacks
      finds nothing. */
  function Lookup(brushes: map<string, Brush>, index: map<string, string>, alias: string): Option<Brush> {
    if alias in index && index[alias] in brushes then Some(brushes[index[alias]]) else None
  }

  /** A freshly built index finds every alias of every registered brush, and what it finds
      lists the alias and carries its name. */
  lemma RegisteredAliasFound(names: seq<string>, brushes: map<string, Brush>, alias: string)
    requires forall n :: n in names <==> n in brushes
    ensures var found := Lookup(Named(names, brushes), BuildIndex(names, brushes), alias);
      (found.Some? <==> exists n :: n in brushes && brushes[n].aliases.Some? && alias in brushes[n].aliases.value)
      && (found.Some? ==> found.value.aliases.Some? && alias in found.value.aliases.value && found.value.brushName.Some?)
  {
    var index := BuildIndex(names, brushes);
    if alias in index {
      var n := index[alias];
      assert n in brushes && brushes[n].aliases.Some? && alias in brushes[n].aliases.value;
    }
  }

  /** The cache as written: once an index has been built, a brush registered afterwards
      is not found by its alias, although a fresh index would find it. */
  lemma StaleCacheExample(b: Brush)
    requires b.aliases == Some(["x"])
    ensures Lookup(map["X" := b], BuildIndex([], map[]), "x") == None
    ensures Lookup(map["X" := b], BuildIndex(["X"], map["X" := b]), "x") == Some(b)
  {
    assert "x" in BuildIndex(["X"], map["X" := b]);
  }

  /** `sh.brushes` and the alias cache. */
  class BrushRegistry {
    /** The keys of `sh.brushes` in registration order. */
    var names: seq<string>
    /** `sh.brushes` */
    var brushes: map<string, Brush>
    /** `sh.vars.discoveredBrushes`: None until the first `findBrush`. */
    var discovered: Option<map<string, string>>

    ghost predicate Valid()
      reads this
    {
      (forall n :: n in names <==> n in brushes)
      && forall i, j :: 0 <= i < j < |names| ==> names[i] != names[j]
    }

    /** The cache, when there is one, is the index of the registered brushes, and every
        brush with aliases carries its name. */
    ghost predicate Coherent()
      reads this
    {
      Valid() && (discovered.Some? ==>
        discovered.value == BuildIndex(names, brushes)
        && forall n :: n in brushes && brushes[n].aliases.Some? ==> brushes[n].brushName == Some(ToLower(n)))
    }

    /** No brush registered, no cache (`sh.brushes = {}`, `discoveredBrushes: null`). */
    constructor ()
      ensures names == [] && brushes == map[] && discovered == None
      ensures Coherent()
    {
      names := [];
      brushes := map[];
      discovered := None;
    }

    /** A brush file's `SyntaxHighlighter.brushes.Name = Brush`, as written: the cache is
        left as it is. */
    method Register(name: string, b: Brush)
      requires Valid()
      modifies this
      ensures Valid()
      ensures brushes == old(brushes)[name := b] && discovered == old(discovered)
      ensures names == if name in old(names) then old(names) else old(names) + [name]
    {
      if name !in names {
        names := names + [name];
      }
      brushes := brushes[name := b];
    }

    /** Registration as evidently intended: the alias cache is dropped, so the next
        `findBrush` sees the new brush. */
    method RegisterBrush(name: string, b: Brush)
      requires Valid()
      modifies this
      ensures Coherent()
      ensures brushes == old(brushes)[name := b] && discovered == None
      ensures names == if name in old(names) then old(names) else old(names) + [name]
    {
      Register(name, b);
      discovered := None;
    }

    /** The first-call part of `findBrush`: every brush with aliases gets its name
        recorded and its aliases entered, in registration order, and the index is cached. */
    method Discover()
      requires Valid() && discovered.None?
      modifies this
      ensures Valid() && names == old(names)
      ensures discovered == Some(BuildIndex(names, old(brushes))) && brushes == Named(names, old(brushes))
      ensures Coherent()
    {
      var ns, bs := names, brushes;
      var index, named := IndexBrushes(ns, bs);
      BuildIndexAliases(ns, bs, named);
      assert forall n :: n in named <==> n in bs;
      brushes := named;
      discovered := Some(index);
    }

    /** `findBrush(alias, showAlert)`: on the first call the index is built (recording
        each brush's name) and cached; then the brush the alias points to is returned,
        or, when there is none and `showAlert` is set, the `noBrush` error. */
    method FindBrush(alias: string, showAlert: bool) returns (result: Result<Option<Brush>, string>)
      requires Valid()
      modifies this
      ensures Valid() && names == old(names) && discovered.Some?
      ensures old(discovered).None? ==>
        discovered == Some(BuildIndex(names, old(brushes))) && brushes == Named(names, old(brushes))
      ensures old(discovered).Some? ==> discovered == old(discovered) && brushes == old(brushes)
      ensures old(Coherent()) ==> Coherent()
      ensures var found := Lookup(brushes, discovered.value, alias);
        result == if found.None? && showAlert then Failure(NoBrush + alias) else Success(found)
    {
      if discovered.None? {
        Discover();
      }
      var found := Lookup(brushes, discovered.value, alias);
      if found.None? && showAlert {
        result := Failure(NoBrush + alias);
      } else {
        result := Success(found);
      }
    }
  }

  /** The loop of `findBrush` over `sh.brushes`: each brush with aliases gets its name
      recorded and its aliases entered, in registration order. */
  method IndexBrushes(ns: seq<string>, bs: map<string, Brush>) returns (index: map<string, string>, named: map<string, Brush>)
    requires forall n :: n in ns ==> n in bs
    ensures index == BuildIndex(ns, bs) && named == Named(ns, bs)
  {
    index := map[];
    named := bs;
    var i := 0;
    while i < |ns|
      invariant 0 <= i <= |ns|
      invariant forall n :: n in ns[..i] ==> n in bs
      invariant index == BuildIndex(ns[..i], bs)
      invariant named == Named(ns[..i], bs)
    {
      var name := ns[i];
      var info := bs[name];
      BuildIndexStep(ns, bs, i);
      NamedStep(ns, bs, i);
      if info.aliases.Some? {
        named := named[name := info.(brushName := Some(ToLower(name)))];
        index := EnterAliases(index, info.aliases.value, name);
      }
      i := i + 1;
    }
    assert ns[..|ns|] == ns;
  }

  /** The `forEach` over one brush's aliases. */
  method EnterAliases(index: map<string, string>, aliases: seq<string>, name: string) returns (r: map<string, string>)
    ensures r == AddAliases(index, aliases, name)
  {
    r := index;
    var j := 0;
    while j < |aliases|
      invariant 0 <= j <= |aliases|
      invariant r == AddAliases(index, aliases[..j], name)
    {
      AddAliasesStep(index, aliases, j, name);
      r := r[aliases[j] := name];
      j := j + 1;
    }
    assert aliases[..|aliases|] == aliases;
  }

  lemma AddAliasesStep(index: map<string, string>, aliases: seq<string>, j: nat, name: string)
    requires j < |aliases|
    ensures AddAliases(index, aliases[..j + 1], name) == AddAliases(index, aliases[..j], name)[aliases[j] := name]
  {
    assert aliases[..j + 1][..j] == aliases[..j];
  }

  lemma BuildIndexStep(names: seq<string>, brushes: map<string, Brush>, i: nat)
    requires i < |names| && forall n :: n in names ==> n in brushes
    ensures forall n :: n in names[..i + 1] ==> n in brushes
    ensures BuildIndex(names[..i + 1], brushes) == match brushes[names[i]].aliases
      case None => BuildIndex(names[..i], brushes)
      case Some(aliases) => AddAliases(BuildIndex(names[..i], brushes), aliases, names[i])
  {
    assert names[..i + 1][..i] == names[..i];
    assert forall n :: n in names[..i + 1] ==> n in names;
  }

  lemma NamedStep(names: seq<string>, brushes: map<string, Brush>, i: nat)
    requires i < |names| && names[i] in brushes
    ensures Named(names[..i + 1], brushes) == if brushes[names[i]].aliases.Some?
      then Named(names[..i], brushes)[names[i] := brushes[names[i]].(brushName := Some(ToLower(names[i])))]
      else Named(names[..i], brushes)
  {
    assert forall m :: m in names[..i + 1] <==> m in names[..i] || m == names[i];
  }

  /** `new sh.HtmlScript(scriptBrushName)`: when the brush is found and has an
      `htmlScript` descriptor, the XML brush's rules (`xmlRules`) get the html-script rule
      at the end; an unknown brush leaves nothing to do (None), and a brush without a
      descriptor is the `brushNotHtmlScript` error. The guest carries the name `findBrush`
      recorded on the brush; with a coherent registry there always is one, while a brush
      registered after the cache was built can still carry none. */
  method HtmlScript(registry: BrushRegistry, scriptBrushName: string, xmlRules: seq<Rule>)
    returns (result: Result<Option<seq<Rule>>, string>)
    requires registry.Valid()
    modifies registry
    ensures registry.Valid() && registry.discovered.Some?
    ensures old(registry.Coherent()) ==> registry.Coherent()
    ensures var found := Lookup(registry.brushes, registry.discovered.value, scriptBrushName);
      match found
      case None => result == Success(None)
      case Some(b) =>
        (old(registry.Coherent()) ==> b.brushName.Some?)
        && if b.htmlScript.None? then result == Failure(BrushNotHtmlScript + scriptBrushName)
           else result == Success(Some(xmlRules + [Embedded(Guest(b.brushName, b.rules, b.htmlScript.value))]))
  {
    var found := registry.FindBrush(scriptBrushName, false);
    var brushClass := found.value;
    if brushClass.None? {
      return Success(None);
    }
    var b := brushClass.value;
    if b.htmlScript.None? {
      return Failure(BrushNotHtmlScript + scriptBrushName);
    }
    var guest := Guest(b.brushName, b.rules, b.htmlScript.value);
    result := Success(Some(xmlRules + [Embedded(guest)]));
  }
}
