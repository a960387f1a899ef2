/** What the rewrite rule guarantees: which names it reports, in which order,
    and how the synthesized call carries them. */
module PrintLocalsProperties {
  import opened Ast
  import opened PrintLocals

  // ---------------------------------------------------------------------------
  // Reading a replacement back

  /** What a synthesized report call says: the filter it applies, if any, and
      the names its object literal lists. */
  datatype Report = Report(filter: Option<Node>, names: seq<string>)

  /** The names of an object literal whose every entry has the shape
      `"name": name`; None when some entry has another shape. */
  function ReadNames(props: seq<Node>): Option<seq<string>>
  {
    if props == [] then Some([])
    else
      var p := props[0];
      if p.ObjectProperty? && p.key.StringLiteral? && p.value.Identifier? && p.key.text == p.value.name
      then
        match ReadNames(props[1..])
        case None => None
        case Some(rest) => Some([p.key.text] + rest)
      else None
  }

  /** Decodes `(console.table || console.log)(obj)` and
      `(console.table || console.log)(f(obj))`; None for anything else. */
  function ReadReport(r: Node): Option<Report>
  {
    if r.Call? && r.callee == ConsoleReporter() && |r.args| == 1 then
      var arg := r.args[0];
      if arg.ObjectExpression? then
        match ReadNames(arg.props)
        case None => None
        case Some(names) => Some(Report(None, names))
      else if arg.Call? && |arg.args| == 1 && arg.args[0].ObjectExpression? then
        match ReadNames(arg.args[0].props)
        case None => None
        case Some(names) => Some(Report(Some(arg.callee), names))
      else None
    else None
  }

  /** The filter the replacement applies: the marker's argument when it has
      exactly one, none otherwise (extra arguments are dropped). */
  function FilterOf(markerArgs: seq<Node>): Option<Node>
  {
    if |markerArgs| == 1 then Some(markerArgs[0]) else None
  }

  lemma {:induction false} ReadNamesProperties(vars: seq<string>)
    ensures ReadNames(Properties(vars)) == Some(vars)
    decreases |vars|
  {
    if vars != [] {
      assert Properties(vars)[1..] == Properties(vars[1..]);
      ReadNamesProperties(vars[1..]);
      assert [vars[0]] + vars[1..] == vars;
    }
  }

  /** The synthesized call lists every collected name once per occurrence, in
      order, each as `"name": name`, and applies exactly the filter the marker
      was given. */
  lemma SynthesizeRoundTrip(vars: seq<string>, markerArgs: seq<Node>)
    ensures ReadReport(Synthesize(vars, markerArgs)) == Some(Report(FilterOf(markerArgs), vars))
  {
    ReadNamesProperties(vars);
  }

  /** Different name lists give different replacements. */
  lemma SynthesizeInjective(vars1: seq<string>, vars2: seq<string>, markerArgs: seq<Node>)
    requires Synthesize(vars1, markerArgs) == Synthesize(vars2, markerArgs)
    ensures vars1 == vars2
  {
    SynthesizeRoundTrip(vars1, markerArgs);
    SynthesizeRoundTrip(vars2, markerArgs);
  }

  // ---------------------------------------------------------------------------
  // Facts about Gather

  lemma {:induction false} GatherConcat(a: seq<Node>, b: seq<Node>, f: Node -> seq<string>)
    ensures Gather(a + b, f) == Gather(a, f) + Gather(b, f)
    decreases |b|
  {
    if b == [] {
      assert a + b == a;
    } else {
      var b' := b[..|b| - 1];
      assert (a + b)[..|a + b| - 1] == a + b';
      GatherConcat(a, b', f);
    }
  }

  lemma {:induction false} GatherMember(ns: seq<Node>, f: Node -> seq<string>, x: string)
    ensures x in Gather(ns, f) <==> exists j :: 0 <= j < |ns| && x in f(ns[j])
    decreases |ns|
  {
    if ns != [] {
      var init := ns[..|ns| - 1];
      GatherMember(init, f, x);
      if x in Gather(init, f) {
        var j :| 0 <= j < |init| && x in f(init[j]);
        assert ns[j] == init[j];
      }
      if exists j :: 0 <= j < |ns| && x in f(ns[j]) {
        var j :| 0 <= j < |ns| && x in f(ns[j]);
        if j < |init| {
          assert init[j] == ns[j];
        }
      }
    }
  }

  // ---------------------------------------------------------------------------
  // The collected scope

  /** A name is reported exactly when some declarator entered before the marker
      binds it. */
  lemma ScopeExactly(fn: Node, at: nat, x: string)
    requires at <= |Descendants(fn)|
    ensures x in ScopeNames(fn, at) <==>
            exists j :: 0 <= j < at && Descendants(fn)[j].Declarator? &&
                        x in BoundNames(Descendants(fn)[j].target)
  {
    var ns := Descendants(fn)[..at];
    GatherMember(ns, DeclaredBy, x);
    if exists j :: 0 <= j < |ns| && x in DeclaredBy(ns[j]) {
      var j :| 0 <= j < |ns| && x in DeclaredBy(ns[j]);
      assert ns[j] == Descendants(fn)[j];
    }
    if exists j :: 0 <= j < at && Descendants(fn)[j].Declarator? &&
                   x in BoundNames(Descendants(fn)[j].target) {
      var j :| 0 <= j < at && Descendants(fn)[j].Declarator? &&
               x in BoundNames(Descendants(fn)[j].target);
      assert ns[j] == Descendants(fn)[j];
    }
  }

  /** Walking on only ever appends: the names collected by an earlier step are
      a prefix of those collected by a later one. */
  lemma ScopeGrowsByAppending(fn: Node, at1: nat, at2: nat)
    requires at1 <= at2 <= |Descendants(fn)|
    ensures ScopeNames(fn, at1) <= ScopeNames(fn, at2)
  {
    var ns := Descendants(fn);
    assert ns[..at2] == ns[..at1] + ns[at1..at2];
    GatherConcat(ns[..at1], ns[at1..at2], DeclaredBy);
  }

  /** Splitting the walk at the marker: the reported names are exactly the part
      of all declared names that comes before it; everything declared from the
      marker on, even in the same block, is left out. */
  lemma DeclarationsAfterMarkerExcluded(fn: Node, at: nat)
    requires at <= |Descendants(fn)|
    ensures Gather(Descendants(fn), DeclaredBy) ==
            ScopeNames(fn, at) + Gather(Descendants(fn)[at..], DeclaredBy)
  {
    var ns := Descendants(fn);
    assert ns == ns[..at] + ns[at..];
    GatherConcat(ns[..at], ns[at..], DeclaredBy);
  }

  /** Two declarators entered before the marker contribute their names in
      source order, with the names of the declarators between them in between;
      nothing is merged or deduplicated. */
  lemma DeclarationOrder(fn: Node, at: nat, j1: nat, j2: nat)
    requires j1 < j2 < at <= |Descendants(fn)|
    ensures ScopeNames(fn, at) ==
            Gather(Descendants(fn)[..j1], DeclaredBy) + DeclaredBy(Descendants(fn)[j1]) +
            Gather(Descendants(fn)[j1 + 1..j2], DeclaredBy) + DeclaredBy(Descendants(fn)[j2]) +
            Gather(Descendants(fn)[j2 + 1..at], DeclaredBy)
  {
    var ns := Descendants(fn);
    assert ns[..at] == ns[..j1] + [ns[j1]] + ns[j1 + 1..j2] + [ns[j2]] + ns[j2 + 1..at];
    GatherConcat(ns[..j1] + [ns[j1]] + ns[j1 + 1..j2] + [ns[j2]], ns[j2 + 1..at], DeclaredBy);
    GatherConcat(ns[..j1] + [ns[j1]] + ns[j1 + 1..j2], [ns[j2]], DeclaredBy);
    GatherConcat(ns[..j1] + [ns[j1]], ns[j1 + 1..j2], DeclaredBy);
    GatherConcat(ns[..j1], [ns[j1]], DeclaredBy);
    assert Gather([ns[j1]], DeclaredBy) == DeclaredBy(ns[j1]);
    assert Gather([ns[j2]], DeclaredBy) == DeclaredBy(ns[j2]);
  }

  /** Declaring the same identifier twice before the marker reports it twice. */
  lemma RepeatedDeclarationReportedTwice(fn: Node, at: nat, j1: nat, j2: nat, x: string)
    requires j1 < j2 < at <= |Descendants(fn)|
    requires Descendants(fn)[j1].Declarator? && Descendants(fn)[j1].target == Identifier(x)
    requires Descendants(fn)[j2].Declarator? && Descendants(fn)[j2].target == Identifier(x)
    ensures exists k1, k2 :: 0 <= k1 < k2 < |ScopeNames(fn, at)| &&
                             ScopeNames(fn, at)[k1] == x && ScopeNames(fn, at)[k2] == x
  {
    var ns := Descendants(fn);
    DeclarationOrder(fn, at, j1, j2);
    var k1 := |Gather(ns[..j1], DeclaredBy)|;
    var k2 := k1 + 1 + |Gather(ns[j1 + 1..j2], DeclaredBy)|;
    assert ScopeNames(fn, at)[k1] == x;
    assert ScopeNames(fn, at)[k2] == x;
  }

  // ---------------------------------------------------------------------------
  // Binding patterns

  /** What each pattern shape reports: an identifier exactly its name; an object
      pattern the key name of every `ObjectProperty` below it (nested patterns
      included) and nothing else; any other shape, such as an array pattern,
      nothing at all. */
  lemma BoundNamesByShape(p: Node, x: string)
    ensures p.Identifier? ==> BoundNames(p) == [p.name]
    ensures p.ObjectPattern? ==>
              (x in BoundNames(p) <==>
               exists j :: 0 <= j < |Descendants(p)| && Descendants(p)[j].ObjectProperty? &&
                           Descendants(p)[j].key == Identifier(x))
    ensures !p.Identifier? && !p.ObjectPattern? ==> BoundNames(p) == []
  {
    var ns := Descendants(p);
    GatherMember(ns, PropertyKey, x);
    forall j | 0 <= j < |ns|
      ensures x in PropertyKey(ns[j]) <==> ns[j].ObjectProperty? && ns[j].key == Identifier(x)
    {
    }
  }

  /** In a pattern whose properties all have an identifier key and a plain
      identifier value (`a` in `{a}`, `a: b` in `{a: b}`), the keys in order, one
      per property. */
  lemma {:induction false} FlatObjectPatternKeys(props: seq<Node>)
    requires forall i :: 0 <= i < |props| ==>
               props[i].ObjectProperty? && props[i].key.Identifier? && props[i].value.Identifier?
    ensures |BoundNames(ObjectPattern(props))| == |props|
    ensures forall i :: 0 <= i < |props| ==> BoundNames(ObjectPattern(props))[i] == props[i].key.name
    decreases |props|
  {
    if props != [] {
      var p := props[0];
      FlatObjectPatternKeys(props[1..]);
      PreorderLeaf(p.key);
      PreorderLeaf(p.value);
      assert Descendants(p) == [p.key, p.value];
      assert Preorder(p) == [p, p.key, p.value];
      assert Descendants(ObjectPattern(props)) == Preorder(p) + PreorderAll(props[1..]);
      GatherConcat(Preorder(p), PreorderAll(props[1..]), PropertyKey);
      assert Gather([p, p.key, p.value], PropertyKey) == [p.key.name] by {
        assert [p, p.key, p.value][..2] == [p, p.key];
        assert [p, p.key][..1] == [p];
        assert [p][..0] == [];
        assert Gather([p], PropertyKey) == [p.key.name];
        assert Gather([p, p.key], PropertyKey) == [p.key.name];
      }
      assert BoundNames(ObjectPattern(props)) == [p.key.name] + BoundNames(ObjectPattern(props[1..]));
    } else {
      assert Descendants(ObjectPattern(props)) == [];
    }
  }

  // ---------------------------------------------------------------------------
  // The visitor as a whole

  /** One visit of a call expression: a call that is not the marker is left
      alone; the marker with no enclosing function is removed; otherwise it is
      replaced by a report of exactly the names declared before it, in order,
      through the filter the marker was given. */
  lemma TransformSpec(call: Node, parent: Option<Node>, at: nat)
    requires call.Call? && WellPlaced(call, parent, at)
    ensures Transform(call, parent, at) == Unchanged <==> !IsMarker(call)
    ensures Transform(call, parent, at) == Removed <==> IsMarker(call) && parent.None?
    ensures Transform(call, parent, at).Replaced? ==>
              parent.Some? &&
              ReadReport(Transform(call, parent, at).replacement) ==
                Some(Report(FilterOf(call.args), ScopeNames(parent.value, at)))
  {
    if IsMarker(call) && parent.Some? {
      SynthesizeRoundTrip(ScopeNames(parent.value, at), call.args);
    }
  }
}
