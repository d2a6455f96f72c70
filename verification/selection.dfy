/** Which inline functions need an unsafe copy: steps 2 to 7 of Main (src/main.cc). */
module Selection {
  import opened Tokens
  import opened Closure
  import opened CallGraph

  const ROOT_FUNCS := {"PTR_BAG", "CONST_PTR_BAG"}
  const BLACKLIST := {"CHANGED_BAG"}

  /** An inline function found in source file `source`, from token `start` to the closing brace at `end`. */
  datatype Func = Func(source: nat, start: nat, end: nat, name: string)

  /** The first branch of a conditional that mentions WARD_ENABLED. */
  datatype Section = Section(source: nat, start: nat, end: nat)

  datatype Program = Program(sources: seq<TokenList>, funcs: seq<Func>) {
    ghost predicate Ok() {
      && (forall s :: s in sources ==> Lexed(s))
      && (forall f :: f in funcs ==> f.source < |sources| && f.start <= f.end < |sources[f.source]| - 1)
    }

    ghost predicate DistinctNames() {
      forall i, j :: 0 <= i < j < |funcs| ==> funcs[i].name != funcs[j].name
    }

    /** The function that its name leads to. */
    ghost predicate First(j: nat) {
      j < |funcs| && forall i :: 0 <= i < j ==> funcs[i].name != funcs[j].name
    }

    ghost predicate HasSection(s: Section) {
      s.source < |sources| && s.start <= s.end < |sources[s.source]| - 1
    }
  }

  // ---------- what is to be selected ----------

  /** The body of function i contains a call of function j, which is the first one with its name. */
  ghost predicate CallsFunc(p: Program, i: nat, j: nat)
    requires p.Ok() && i < |p.funcs| && j < |p.funcs|
  {
    var f := p.funcs[i];
    assert f in p.funcs;
    var t := p.sources[f.source];
    && p.First(j)
    && exists first: nat, q: nat :: IsBodyStart(t, f.start, first) && CallAt({p.funcs[j].name}, t, first, f.end, q)
  }

  ghost function CallRelation(p: Program): Relation
    requires p.Ok()
  {
    seq(|p.funcs|, i requires 0 <= i < |p.funcs| => set j: nat | j < |p.funcs| && CallsFunc(p, i, j))
  }

  /** Token q of the section starts a call of a function with that name. */
  ghost predicate SectionCall(p: Program, s: Section, name: string, q: nat) {
    p.HasSection(s) && CallAt({name}, p.sources[s.source], s.start, s.end, q)
  }

  ghost predicate CalledIn(p: Program, sections: seq<Section>, name: string) {
    exists s, q: nat :: s in sections && SectionCall(p, s, name, q)
  }

  /** An unsafe section contains a direct call of function j. */
  ghost predicate Direct(p: Program, sections: seq<Section>, j: nat)
    requires j < |p.funcs|
  {
    CalledIn(p, sections, p.funcs[j].name)
  }

  ghost predicate ReachesRoot(p: Program, f: nat)
    requires p.Ok() && f < |p.funcs|
  {
    exists k: nat :: k < |p.funcs| && p.funcs[k].name in ROOT_FUNCS && Leads(CallRelation(p), f, k)
  }

  /** Function f lies on a call path from a direct call in an unsafe section to a root function. */
  ghost predicate OnPath(p: Program, sections: seq<Section>, f: nat)
    requires p.Ok() && f < |p.funcs|
  {
    ReachesRoot(p, f) && exists g: nat :: g < |p.funcs| && Direct(p, sections, g) && Leads(CallRelation(p), g, f)
  }

  /** Some function with this name reaches a root function. */
  ghost predicate RootName(p: Program, name: string)
    requires p.Ok()
  {
    exists j: nat :: j < |p.funcs| && p.funcs[j].name == name && ReachesRoot(p, j)
  }

  /** Function i is reached from one whose name is called in an unsafe section and is that of a function that reaches
      a root. */
  ghost predicate Reached(p: Program, sections: seq<Section>, i: nat)
    requires p.Ok() && i < |p.funcs|
  {
    exists b: nat ::
      b < |p.funcs| && Direct(p, sections, b) && RootName(p, p.funcs[b].name) && Leads(CallRelation(p), b, i)
  }

  ghost predicate ReachedName(p: Program, sections: seq<Section>, name: string)
    requires p.Ok()
  {
    exists i: nat :: i < |p.funcs| && p.funcs[i].name == name && Reached(p, sections, i)
  }

  // ---------- calls of the functions ----------

  ghost predicate MapOk(p: Program, m: map<string, nat>) {
    && (forall n :: n in m ==> p.First(m[n]) && p.funcs[m[n]].name == n)
    && (forall i :: 0 <= i < |p.funcs| ==> p.funcs[i].name in m)
  }

  /** BuildFuncMap: a name leads to the first function that has it. */
  method BuildFuncMap(p: Program) returns (m: map<string, nat>)
    ensures forall n :: n in m ==> p.First(m[n]) && p.funcs[m[n]].name == n
    ensures forall i :: 0 <= i < |p.funcs| ==> p.funcs[i].name in m
  {
    m := map[];
    var i := 0;
    while i < |p.funcs|
      invariant i <= |p.funcs|
      invariant forall n :: n in m ==> m[n] < i && p.First(m[n]) && p.funcs[m[n]].name == n
      invariant forall j :: 0 <= j < i ==> p.funcs[j].name in m
    {
      if p.funcs[i].name !in m {
        m := m[p.funcs[i].name := i];
      }
      i := i + 1;
    }
  }

  /** FindCalls on one function: the indices of the functions it calls. */
  method FuncCalls(p: Program, m: map<string, nat>, i: nat) returns (targets: seq<nat>)
    requires p.Ok() && i < |p.funcs|
    requires MapOk(p, m)
    ensures forall j: nat :: j in targets <==> j < |p.funcs| && CallsFunc(p, i, j)
  {
    var f := p.funcs[i];
    assert f in p.funcs;
    var t := p.sources[f.source];
    var positions, first := FindCalls(m.Keys, t, f.start, f.end, true);
    targets := [];
    var k := 0;
    while k < |positions|
      invariant k <= |positions|
      invariant forall j: nat :: j in targets <==> Targeted(t, m, positions, k, j)
    {
      assert positions[k] in positions;
      targets := targets + [m[t[positions[k]].str]];
      k := k + 1;
    }
    TargetsAreCalls(p, m, i, first, positions, targets);
  }

  /** One of the first `n` positions holds a name that leads to j. */
  ghost predicate Targeted(t: TokenList, m: map<string, nat>, positions: seq<nat>, n: nat, j: nat)
    requires n <= |positions|
  {
    exists k :: 0 <= k < n && positions[k] < |t| && t[positions[k]].str in m && m[t[positions[k]].str] == j
  }

  lemma TargetsAreCalls(p: Program, m: map<string, nat>, i: nat, first: nat, positions: seq<nat>, targets: seq<nat>)
    requires p.Ok() && i < |p.funcs|
    requires MapOk(p, m)
    requires p.funcs[i] in p.funcs && IsBodyStart(p.sources[p.funcs[i].source], p.funcs[i].start, first)
    requires forall q: nat ::
      (q in positions <==> CallAt(m.Keys, p.sources[p.funcs[i].source], first, p.funcs[i].end, q))
    requires forall j: nat :: j in targets <==> Targeted(p.sources[p.funcs[i].source], m, positions, |positions|, j)
    ensures forall j: nat :: j in targets <==> j < |p.funcs| && CallsFunc(p, i, j)
  {
    var f := p.funcs[i];
    var t := p.sources[f.source];
    forall j: nat | j in targets ensures j < |p.funcs| && CallsFunc(p, i, j) {
      var k :| 0 <= k < |positions| && positions[k] < |t| && t[positions[k]].str in m && m[t[positions[k]].str] == j;
      var q := positions[k];
      assert q in positions && CallAt({p.funcs[j].name}, t, first, f.end, q);
    }
    forall j: nat | j < |p.funcs| && CallsFunc(p, i, j) ensures j in targets {
      var first': nat, q: nat :| IsBodyStart(t, f.start, first') && CallAt({p.funcs[j].name}, t, first', f.end, q);
      assert first' == first;
      assert CallAt(m.Keys, t, first, f.end, q) && q in positions;
      var k :| 0 <= k < |positions| && positions[k] == q;
      assert t[positions[k]].str == p.funcs[j].name;
      OneFirst(p, m[p.funcs[j].name], j);
    }
  }

  lemma OneFirst(p: Program, i: nat, j: nat)
    requires p.First(i) && p.First(j) && p.funcs[i].name == p.funcs[j].name
    ensures i == j
  {
  }

  method AllCalls(p: Program, m: map<string, nat>) returns (calls: seq<seq<nat>>)
    requires p.Ok()
    requires MapOk(p, m)
    ensures |calls| == |p.funcs| && Calls(calls) == CallRelation(p)
    ensures forall i, x :: 0 <= i < |calls| && x in calls[i] ==> x < |calls|
  {
    hide CallsFunc;
    calls := [];
    while |calls| < |p.funcs|
      invariant |calls| <= |p.funcs|
      invariant forall i: nat, j: nat :: i < |calls| ==> (j in calls[i] <==> j < |p.funcs| && CallsFunc(p, i, j))
    {
      var targets := FuncCalls(p, m, |calls|);
      calls := calls + [targets];
    }
    assert forall i :: 0 <= i < |calls| ==> Calls(calls)[i] == CallRelation(p)[i];
  }

  /** The names of the functions called in the sections, as far as they are among `names`. */
  method SectionCalls(p: Program, names: set<string>, sections: seq<Section>) returns (used: set<string>)
    requires p.Ok() && forall s :: s in sections ==> p.HasSection(s)
    ensures forall n :: n in used <==> (n in names && CalledIn(p, sections, n))
  {
    hide CallForm, CalledIn;
    used := {};
    NoCalls(p, sections);
    var k := 0;
    while k < |sections|
      invariant k <= |sections|
      invariant forall n :: n in used <==> (n in names && CalledIn(p, sections[..k], n))
    {
      var s := sections[k];
      assert s in sections && p.HasSection(s);
      var here := OneSection(p, names, s);
      forall n ensures CalledIn(p, sections[..k + 1], n) <==> (CalledIn(p, sections[..k], n) || CalledIn(p, [s], n)) {
        MoreSections(p, sections, k, n);
      }
      used := used + here;
      k := k + 1;
    }
    assert sections[..k] == sections;
  }

  lemma NoCalls(p: Program, sections: seq<Section>)
    ensures forall n :: !CalledIn(p, sections[..0], n)
  {
  }

  lemma MoreSections(p: Program, sections: seq<Section>, k: nat, n: string)
    requires k < |sections|
    ensures CalledIn(p, sections[..k + 1], n) <==> (CalledIn(p, sections[..k], n) || CalledIn(p, [sections[k]], n))
  {
    hide SectionCall;
    assert sections[..k + 1] == sections[..k] + [sections[k]];
  }

  method OneSection(p: Program, names: set<string>, s: Section) returns (used: set<string>)
    requires p.Ok() && p.HasSection(s)
    ensures forall n :: n in used <==> (n in names && CalledIn(p, [s], n))
  {
    hide CallForm;
    var t := p.sources[s.source];
    var positions, first := FindCalls(names, t, s.start, s.end, false);
    used := {};
    var i := 0;
    while i < |positions|
      invariant i <= |positions|
      invariant forall n :: n in used ==> n in names && CalledIn(p, [s], n)
      invariant forall j :: 0 <= j < i ==> positions[j] < |t| && t[positions[j]].str in used
    {
      var q := positions[i];
      assert q in positions;
      CallInside(t, s.end, q);
      assert SectionCall(p, s, t[q].str, q);
      used := used + {t[q].str};
      i := i + 1;
    }
    forall n | n in names && CalledIn(p, [s], n) ensures n in used {
      var q: nat :| SectionCall(p, s, n, q);
      assert CallAt(names, t, s.start, s.end, q);
      assert q in positions;
    }
  }

  lemma CallInside(t: TokenList, end: nat, q: nat)
    requires CallForm(t, end, q)
    ensures q < |t|
  {
  }

  // ---------- the selection ----------

  method NamesOf(p: Program, funcs: seq<nat>) returns (names: set<string>)
    requires forall i :: i in funcs ==> i < |p.funcs|
    ensures forall n :: n in names <==> exists i: nat :: i in funcs && i < |p.funcs| && p.funcs[i].name == n
  {
    names := {};
    var k := 0;
    while k < |funcs|
      invariant k <= |funcs|
      invariant forall n :: n in names <==> exists i: nat :: i in funcs[..k] && i < |p.funcs| && p.funcs[i].name == n
    {
      assert funcs[k] in funcs && funcs[..k + 1] == funcs[..k] + [funcs[k]];
      names := names + {p.funcs[funcs[k]].name};
      k := k + 1;
    }
    assert funcs[..k] == funcs;
  }

  method Unlisted(names: set<string>) returns (rest: set<string>)
    ensures forall n :: n in rest <==> n in names && n != "CHANGED_BAG"
  {
    rest := names - BLACKLIST;
  }

  /** Steps 2 to 7 of Main. With distinct function names, the selected names are exactly those of the functions on a
      call path from a direct call in an unsafe section to a root function, without the blacklist: seeding the search
      only with calls of functions that reach a root loses nothing. Functions on such a path are never missed. */
  method Select(p: Program, sections: seq<Section>) returns (selected: set<string>, wardNames: set<string>)
    requires p.Ok() && forall s :: s in sections ==> p.HasSection(s)
    ensures forall n :: n in wardNames <==> RootName(p, n)
    ensures forall n :: n in selected <==> (n != "CHANGED_BAG" && ReachedName(p, sections, n) && RootName(p, n))
    ensures forall f ::
      0 <= f < |p.funcs| && OnPath(p, sections, f) && p.funcs[f].name != "CHANGED_BAG" ==> p.funcs[f].name in selected
    ensures p.DistinctNames() ==> forall f :: 0 <= f < |p.funcs| ==>
      (p.funcs[f].name in selected <==> (p.funcs[f].name != "CHANGED_BAG" && OnPath(p, sections, f)))
  {
    hide CallsFunc, CalledIn, Calls, CallRelation, ReachesRoot, Leads, OnPath, ReachedName, RootName, Program.First;
    hide Program.DistinctNames;
    var m := BuildFuncMap(p);
    var calls := AllCalls(p, m);
    var names := seq(|p.funcs|, i requires 0 <= i < |p.funcs| => p.funcs[i].name);
    var wardFuncs := FindWardFuncs(p, calls, names);
    wardNames := NamesOf(p, wardFuncs);
    var used := SectionCalls(p, wardNames, sections);
    var usedFuncs := FindUsedFuncs(p, calls, names, used);
    var usedNames := NamesOf(p, usedFuncs);
    selected := Unlisted(usedNames * wardNames);
    SelectedRight(p, sections, wardFuncs, wardNames, used, usedFuncs, usedNames);
    forall f: nat | f < |p.funcs| && OnPath(p, sections, f)
      ensures ReachedName(p, sections, p.funcs[f].name) && RootName(p, p.funcs[f].name)
    {
      PathSelected(p, sections, f);
    }
    forall f: nat | f < |p.funcs| && p.DistinctNames() && p.funcs[f].name in selected ensures OnPath(p, sections, f) {
      SelectedOnPath(p, sections, f);
    }
  }

  /** Step 3: the functions from which a root function is reached, over the closed graph of callers. */
  method FindWardFuncs(p: Program, calls: seq<seq<nat>>, names: seq<string>) returns (ward: seq<nat>)
    requires p.Ok() && |names| == |p.funcs| == |calls| && forall i :: 0 <= i < |names| ==> names[i] == p.funcs[i].name
    requires Calls(calls) == CallRelation(p) && forall i, x :: 0 <= i < |calls| && x in calls[i] ==> x < |calls|
    ensures forall i: nat :: i in ward <==> (i < |p.funcs| && ReachesRoot(p, i))
  {
    hide CallsFunc, Connected, Leads, Calls, CallRelation, ReachesRoot, Program.Ok, Matrix;
    var g, c := BuildCallGraph(calls, false);
    ward := FindAllCalls(g, names, ROOT_FUNCS, c);
    WardFuncs(p, names, c, ward);
  }

  /** Step 5: the functions with a name in `base` and all that they call, directly or not. */
  method FindUsedFuncs(p: Program, calls: seq<seq<nat>>, names: seq<string>, base: set<string>) returns (used: seq<nat>)
    requires p.Ok() && |names| == |p.funcs| == |calls| && forall i :: 0 <= i < |names| ==> names[i] == p.funcs[i].name
    requires Calls(calls) == CallRelation(p) && forall i, x :: 0 <= i < |calls| && x in calls[i] ==> x < |calls|
    ensures forall i: nat :: i in used <==> (i < |p.funcs| &&
      exists b: nat :: b < |p.funcs| && p.funcs[b].name in base && Leads(CallRelation(p), b, i))
  {
    hide CallsFunc, Connected, Leads, Calls, CallRelation, Program.Ok, Matrix;
    var g, c := BuildCallGraph(calls, true);
    used := FindAllCalls(g, names, base, c);
    UsedFuncs(p, names, c, base, used);
  }

  lemma WardFuncs(p: Program, names: seq<string>, c: Relation, ward: seq<nat>)
    requires p.Ok() && |names| == |p.funcs| == |c| && forall i :: 0 <= i < |names| ==> names[i] == p.funcs[i].name
    requires forall i: nat, j: nat :: i < |c| ==> (j in c[i] <==> Connected(CallRelation(p), j, i))
    requires forall i: nat :: i in ward <==> (i < |names| &&
      (names[i] in ROOT_FUNCS || exists b: nat :: b < |names| && names[b] in ROOT_FUNCS && i in c[b]))
    ensures forall i: nat :: i in ward <==> (i < |p.funcs| && ReachesRoot(p, i))
  {
    hide Connected, CallRelation;
  }

  lemma UsedFuncs(p: Program, names: seq<string>, c: Relation, base: set<string>, used: seq<nat>)
    requires p.Ok() && |names| == |p.funcs| == |c| && forall i :: 0 <= i < |names| ==> names[i] == p.funcs[i].name
    requires forall i: nat, j: nat :: i < |c| ==> (j in c[i] <==> Connected(CallRelation(p), i, j))
    requires forall i: nat :: i in used <==> (i < |names| &&
      (names[i] in base || exists b: nat :: b < |names| && names[b] in base && i in c[b]))
    ensures forall i: nat :: i in used <==> (i < |p.funcs| &&
      exists b: nat :: b < |p.funcs| && p.funcs[b].name in base && Leads(CallRelation(p), b, i))
  {
    hide Connected, CallRelation;
  }

  lemma SelectedRight(p: Program, sections: seq<Section>, ward: seq<nat>, wardNames: set<string>, used: set<string>,
                      usedFuncs: seq<nat>, usedNames: set<string>)
    requires p.Ok()
    requires forall i: nat :: i in ward <==> (i < |p.funcs| && ReachesRoot(p, i))
    requires forall n :: n in wardNames <==> exists i: nat :: i in ward && i < |p.funcs| && p.funcs[i].name == n
    requires forall n :: n in used <==> (n in wardNames && CalledIn(p, sections, n))
    requires forall i: nat :: i in usedFuncs <==> (i < |p.funcs| &&
      exists b: nat :: b < |p.funcs| && p.funcs[b].name in used && Leads(CallRelation(p), b, i))
    requires forall n :: n in usedNames <==> exists i: nat :: i in usedFuncs && i < |p.funcs| && p.funcs[i].name == n
    ensures forall n :: n in wardNames <==> RootName(p, n)
    ensures forall n :: n in usedNames <==> ReachedName(p, sections, n)
  {
    hide Leads, CallRelation, CalledIn, ReachesRoot;
    forall n ensures n in wardNames <==> RootName(p, n) {
    }
    forall i: nat | i < |p.funcs| ensures i in usedFuncs <==> Reached(p, sections, i) {
    }
  }

  /** With any names, a function on a path has its name selected. */
  lemma PathSelected(p: Program, sections: seq<Section>, f: nat)
    requires p.Ok() && f < |p.funcs| && OnPath(p, sections, f)
    ensures ReachedName(p, sections, p.funcs[f].name) && RootName(p, p.funcs[f].name)
  {
    hide Leads, CallRelation, CalledIn, ReachesRoot;
    var g: nat :| g < |p.funcs| && Direct(p, sections, g) && Leads(CallRelation(p), g, f);
    SeedReaches(p, g, f);
    assert Reached(p, sections, f);
  }

  lemma SelectedOnPath(p: Program, sections: seq<Section>, f: nat)
    requires p.Ok() && p.DistinctNames() && f < |p.funcs|
    requires ReachedName(p, sections, p.funcs[f].name) && RootName(p, p.funcs[f].name)
    ensures OnPath(p, sections, f)
  {
    hide Leads, CallRelation, CalledIn, ReachesRoot;
    assert forall i: nat :: i < |p.funcs| && p.funcs[i].name == p.funcs[f].name ==> i == f;
  }

  /** What leads to a function that reaches a root reaches a root itself. */
  lemma SeedReaches(p: Program, g: nat, f: nat)
    requires p.Ok() && g < |p.funcs| && f < |p.funcs| && Leads(CallRelation(p), g, f) && ReachesRoot(p, f)
    ensures ReachesRoot(p, g)
  {
    var k: nat :| k < |p.funcs| && p.funcs[k].name in ROOT_FUNCS && Leads(CallRelation(p), f, k);
    LeadsTwice(CallRelation(p), g, f, k);
  }

  /** No unsafe copy calls a guarded original: a callee that reaches a root is on a path as well. */
  lemma CalleesCovered(p: Program, sections: seq<Section>, f: nat, h: nat)
    requires p.Ok() && f < |p.funcs| && h < |p.funcs|
    requires OnPath(p, sections, f) && CallsFunc(p, f, h) && ReachesRoot(p, h)
    ensures OnPath(p, sections, h)
  {
    hide CallsFunc, Connected, CalledIn;
    var g: nat :| g < |p.funcs| && Direct(p, sections, g) && Leads(CallRelation(p), g, f);
    EdgeConnects(CallRelation(p), f, h);
    LeadsTwice(CallRelation(p), g, f, h);
  }

  // ---------- which guarded functions count ----------

  /** A function called directly in an unsafe section is on a path, and so selected unless it is on the blacklist, just
      when it reaches PTR_BAG or CONST_PTR_BAG; the other two guarded functions play no part. */
  lemma DirectSelected(p: Program, sections: seq<Section>, f: nat)
    requires p.Ok() && f < |p.funcs| && Direct(p, sections, f)
    ensures OnPath(p, sections, f) <==> exists k: nat ::
      k < |p.funcs| && p.funcs[k].name in {"PTR_BAG", "CONST_PTR_BAG"} && Leads(CallRelation(p), f, k)
  {
    hide CalledIn, CallRelation;
    assert Leads(CallRelation(p), f, f);
  }

  lemma NoRoot(p: Program)
    requires |p.funcs| == 2 && p.funcs[0].name == "ADDR_OBJ" && p.funcs[1].name == "f" && p.Ok()
    ensures !RootName(p, "f") && !ReachesRoot(p, 1)
  {
    hide Leads, CallRelation;
    assert p.funcs[0].name[0] == 'A' && p.funcs[1].name[0] == 'f';
  }

  /** An inline function that calls ADDR_OBJ, and is called in an unsafe section, is not selected. */
  lemma AddrObjIgnored(t: TokenList, p: Program, s: Section)
    requires t == [Token(Static, ""), Token(Inline, ""), Token(Ident, "ADDR_OBJ"), Token(LPar, ""), Token(RPar, ""),
                   Token(LBrace, ""), Token(RBrace, ""),
                   Token(Static, ""), Token(Inline, ""), Token(Ident, "f"), Token(LPar, ""), Token(RPar, ""),
                   Token(LBrace, ""), Token(Ident, "ADDR_OBJ"), Token(LPar, ""), Token(RPar, ""), Token(RBrace, ""),
                   Token(PPIf, "#ifndef WARD_ENABLED"), Token(Ident, "f"), Token(LPar, ""), Token(RPar, ""),
                   Token(PPEndif, "#endif"), Token(EOF, "")]
    requires p == Program([t], [Func(0, 0, 6, "ADDR_OBJ"), Func(0, 7, 16, "f")]) && s == Section(0, 17, 21)
    ensures p.Ok() && p.HasSection(s) && CallsFunc(p, 1, 0) && Direct(p, [s], 1) && !RootName(p, "f")
      && !OnPath(p, [s], 1)
  {
    hide Leads, CallForm, CallRelation;
    NextIsCall(t, 16, 13);
    NextIsCall(t, 21, 18);
    NoRoot(p);
    assert IsBodyStart(t, 7, 12) && CallAt({"ADDR_OBJ"}, t, 12, 16, 13);
    assert SectionCall(p, s, "f", 18);
  }
}
