/** Main from the lexed files to the rewritten ones (src/main.cc). */
module Pipeline {
  import opened Tokens
  import opened Sections
  import opened Selection
  import opened Rewrite

  // ---------- names that exist already ----------

  predicate Prefixed(name: string) {
    "UNSAFE_" <= name || "Unsafe" <= name
  }

  /** No copy is made under this name: it is that of an unsafe function or the safe name of one. */
  ghost predicate Skipped(names: set<string>, name: string) {
    exists m :: m in names && Prefixed(m) && (name == m || name == SafeName(m))
  }

  ghost function FuncNames(p: Program): set<string> {
    set f | f in p.funcs :: f.name
  }

  method AllNames(p: Program) returns (names: set<string>)
    ensures names == FuncNames(p)
  {
    names := {};
    var i := 0;
    while i < |p.funcs|
      invariant i <= |p.funcs|
      invariant forall n :: n in names <==> exists k :: 0 <= k < i && p.funcs[k].name == n
    {
      names := names + {p.funcs[i].name};
      i := i + 1;
    }
    forall n ensures n in names <==> n in FuncNames(p) {
      if f :| f in p.funcs && f.name == n {
        var k :| 0 <= k < |p.funcs| && p.funcs[k] == f;
      }
    }
  }

  /** Function k has an unsafe prefix, and the name is its own or its safe name. */
  ghost predicate SkippedBy(p: Program, k: nat, n: string) {
    k < |p.funcs| && Prefixed(p.funcs[k].name) && (n == p.funcs[k].name || n == SafeName(p.funcs[k].name))
  }

  method UnsafeNames(p: Program) returns (skip: set<string>)
    ensures forall n :: n in skip <==> Skipped(FuncNames(p), n)
  {
    skip := {};
    var i := 0;
    while i < |p.funcs|
      invariant i <= |p.funcs|
      invariant forall n :: n in skip <==> exists k: nat :: k < i && SkippedBy(p, k, n)
    {
      ghost var before := skip;
      var name := p.funcs[i].name;
      if Prefixed(name) {
        skip := skip + {name, SafeName(name)};
      }
      assert forall n :: n in skip <==> n in before || SkippedBy(p, i, n);
      i := i + 1;
    }
    forall n ensures n in skip <==> Skipped(FuncNames(p), n) {
      if Skipped(FuncNames(p), n) {
        var m :| m in FuncNames(p) && Prefixed(m) && (n == m || n == SafeName(m));
        var f :| f in p.funcs && f.name == m;
        var k :| 0 <= k < |p.funcs| && p.funcs[k] == f;
        assert SkippedBy(p, k, n);
      }
      if k: nat :| k < |p.funcs| && SkippedBy(p, k, n) {
        assert p.funcs[k].name in FuncNames(p);
      }
    }
  }

  /** The unsafe name is that of a function in the files or of a copy that is made. */
  ghost predicate Named(names: set<string>, used: set<string>, name: string) {
    || UnsafeName(name) in names
    || exists c :: c in used && !Skipped(names, c) && UnsafeName(c) == UnsafeName(name)
  }

  /** Calls of a selected function find a function under the unsafe name, just when it is not skipped or the files have
      one with exactly that name. */
  lemma NamedWhen(names: set<string>, used: set<string>, name: string)
    requires used <= names && name in used
    ensures Named(names, used, name) <==> (!Skipped(names, name) || UnsafeName(name) in names)
  {
    forall c | c in used && !Skipped(names, c) && UnsafeName(c) == UnsafeName(name)
      ensures c == name || UnsafeName(name) in names
    {
      SamePrefix(c, name);
    }
  }

  /** A name without prefix shares its unsafe name only with that unsafe name itself. */
  lemma SamePrefix(c: string, name: string)
    requires !Prefixed(c) && UnsafeName(c) == UnsafeName(name)
    ensures c == name || name == UnsafeName(name)
  {
    var a, b := UnsafePrefix(c), UnsafePrefix(name);
    if name != UnsafeName(name) {
      assert (a + c)[1] == a[1] && (b + name)[1] == b[1];
      assert a == b;
      assert (a + c)[|a|..] == c && (b + name)[|b|..] == name;
    }
  }

  /** A function foo beside an unsafe one under the other prefix: calls of foo are renamed, and nothing has the name. */
  lemma OtherPrefix(names: set<string>, used: set<string>)
    requires used <= names && "foo" in used && "UNSAFE_foo" in names && "Unsafefoo" !in names
    ensures Skipped(names, "foo") && UnsafeName("foo") == "Unsafefoo" && "Unsafefoo" !in names
      && !Named(names, used, "foo")
  {
    assert Lower("foo"[0]);
    assert "UNSAFE_foo"[1] == 'N' && "UNSAFE_foo"[7..] == "foo";
    assert SafeName("UNSAFE_foo") == "foo" && Prefixed("UNSAFE_foo");
    NamedWhen(names, used, "foo");
  }

  // ---------- step 1: the functions of all header files ----------

  /** Inline functions are looked for in files with this ending only. */
  predicate Header(filename: string) {
    |filename| >= 2 && filename[|filename| - 2..] == ".h"
  }

  lemma HeaderEnding(filename: string)
    ensures Header(filename) <==> exists stem :: filename == stem + ".h"
  {
    if Header(filename) {
      assert filename == filename[..|filename| - 2] + ".h";
    }
  }

  /** Function g is one that the file it names really has. */
  ghost predicate InlineFunc(sources: seq<TokenList>, g: Func) {
    g.source < |sources| && exists namepos: nat, body: nat ::
      Shape(sources[g.source], g.start, namepos, body, g.end) && g.name == sources[g.source][namepos].str
  }

  /** Every inline function of file k begins inside one that is listed. */
  ghost predicate Complete(t: TokenList, k: nat, funcs: seq<Func>) {
    forall s: nat :: InlineAt(t, s) ==> exists g :: g in funcs && g.source == k && g.start <= s <= g.end
  }

  /** A body of the file is not closed. */
  ghost predicate Open(t: TokenList) {
    exists b :: 0 <= b < |t| && t[b].sym == LBrace && forall e: nat :: !Closes(t, b, e)
  }

  /** The functions found in one file. */
  ghost predicate FoundIn(t: TokenList, funcs: seq<FuncSpec>)
    reads funcs
  {
    InOrder(funcs) && forall f :: f in funcs ==> f.Found(t)
  }

  /** The list describes what was found in file k. */
  ghost predicate Described(fs: seq<FuncSpec>, k: nat, funcs: seq<Func>)
    reads fs
  {
    |funcs| == |fs| && forall i :: 0 <= i < |fs| ==> funcs[i] == Func(k, fs[i].start, fs[i].end, fs[i].name)
  }

  method Describe(fs: seq<FuncSpec>, k: nat) returns (funcs: seq<Func>)
    ensures Described(fs, k, funcs)
  {
    funcs := [];
    while |funcs| < |fs|
      invariant |funcs| <= |fs|
      invariant forall i :: 0 <= i < |funcs| ==> funcs[i] == Func(k, fs[i].start, fs[i].end, fs[i].name)
    {
      var f := fs[|funcs|];
      funcs := funcs + [Func(k, f.start, f.end, f.name)];
    }
  }

  lemma DescribedInline(sources: seq<TokenList>, k: nat, fs: seq<FuncSpec>, funcs: seq<Func>)
    requires k < |sources| && Lexed(sources[k]) && FoundIn(sources[k], fs) && Described(fs, k, funcs)
    ensures forall g :: g in funcs ==> g.source == k && InlineFunc(sources, g) && g.start <= g.end < |sources[k]| - 1
  {
    hide Shape, InOrder;
    var t := sources[k];
    forall g | g in funcs ensures g.source == k && InlineFunc(sources, g) && g.start <= g.end < |t| - 1 {
      var i :| 0 <= i < |funcs| && funcs[i] == g;
      assert fs[i].Found(t) && Shape(t, g.start, fs[i].namepos, fs[i].body, g.end);
      ShapeBounds(t, g.start, fs[i].namepos, fs[i].body, g.end);
    }
  }

  lemma DescribedComplete(t: TokenList, k: nat, fs: seq<FuncSpec>, funcs: seq<Func>)
    requires Described(fs, k, funcs) && forall s: nat :: InlineAt(t, s) ==> Covered(fs, s)
    ensures Complete(t, k, funcs)
  {
    hide InlineAt;
    forall s: nat | InlineAt(t, s) ensures exists g :: g in funcs && g.source == k && g.start <= s <= g.end {
      var f :| f in fs && f.start <= s <= f.end;
      var i :| 0 <= i < |fs| && fs[i] == f;
      assert funcs[i] in funcs;
    }
  }

  lemma ShapeBounds(t: TokenList, start: nat, namepos: nat, body: nat, end: nat)
    requires Shape(t, start, namepos, body, end)
    ensures start <= namepos < end < |t| - 1 && t[namepos].sym == Ident
  {
  }

  ghost function Objects(found: seq<seq<FuncSpec>>): set<FuncSpec> {
    set k, i | 0 <= k < |found| && 0 <= i < |found[k]| :: found[k][i]
  }

  /** Functions of different files are different objects. */
  ghost predicate Separated(found: seq<seq<FuncSpec>>) {
    forall j, k, f :: 0 <= j < k < |found| && f in found[j] ==> f !in found[k]
  }

  /** The list after the first n files: functions that header files have, and all of theirs. */
  ghost predicate Listed(sources: seq<TokenList>, filenames: seq<string>, n: nat, funcs: seq<Func>) {
    && n <= |sources| == |filenames|
    && (forall g :: g in funcs ==> g.source < n && Header(filenames[g.source]) && InlineFunc(sources, g)
                                   && g.start <= g.end < |sources[g.source]| - 1)
    && (forall k :: 0 <= k < n && Header(filenames[k]) ==> Complete(sources[k], k, funcs)) && Apart(funcs)
  }

  /** Functions of the same file do not overlap and come in its order. */
  ghost predicate Apart(funcs: seq<Func>) {
    forall i, j :: 0 <= i < j < |funcs| && funcs[i].source == funcs[j].source ==> funcs[i].end < funcs[j].start
  }

  lemma MoreApart(n: nat, funcs: seq<Func>, more: seq<Func>)
    requires Apart(funcs) && Apart(more) && (forall g :: g in funcs ==> g.source < n)
      && (forall g :: g in more ==> g.source == n)
    ensures Apart(funcs + more)
  {
    var all := funcs + more;
    forall i, j | 0 <= i < j < |all| && all[i].source == all[j].source ensures all[i].end < all[j].start {
      assert i < |funcs| ==> all[i] in funcs;
      assert j >= |funcs| ==> all[j] in more;
    }
  }

  lemma DescribedApart(t: TokenList, fs: seq<FuncSpec>, k: nat, funcs: seq<Func>)
    requires FoundIn(t, fs) && Described(fs, k, funcs)
    ensures Apart(funcs)
  {
  }

  lemma ListMore(sources: seq<TokenList>, filenames: seq<string>, n: nat, funcs: seq<Func>, more: seq<Func>)
    requires Listed(sources, filenames, n, funcs) && n < |sources|
    requires if Header(filenames[n]) then Complete(sources[n], n, more) else more == []
    requires Apart(more)
      && forall g :: g in more ==> g.source == n && InlineFunc(sources, g) && g.start <= g.end < |sources[n]| - 1
    ensures Listed(sources, filenames, n + 1, funcs + more)
  {
    hide InlineFunc, Complete, Header, Apart;
    MoreApart(n, funcs, more);
    forall k | 0 <= k < n + 1 && Header(filenames[k]) ensures Complete(sources[k], k, funcs + more) {
      CompleteMore(sources[k], k, if k < n then funcs else more, funcs + more);
    }
  }

  lemma CompleteMore(t: TokenList, k: nat, funcs: seq<Func>, all: seq<Func>)
    requires Complete(t, k, funcs) && forall g :: g in funcs ==> g in all
    ensures Complete(t, k, all)
  {
    hide InlineAt;
    forall s: nat | InlineAt(t, s) ensures exists g :: g in all && g.source == k && g.start <= s <= g.end {
      var g :| g in funcs && g.source == k && g.start <= s <= g.end;
      assert g in all;
    }
  }

  /** The description fits the function. */
  ghost predicate Fits(f: FuncSpec, k: nat, g: Func) {
    g == Func(k, f.start0, f.end0, f.name)
  }

  /** What was found in file k is what is listed for it. */
  ghost predicate ListedAs(fs: seq<FuncSpec>, k: nat, funcs: seq<Func>) {
    && (forall f :: f in fs ==> exists g :: g in funcs && Fits(f, k, g))
    && (forall g :: g in funcs && g.source == k ==> exists f :: f in fs && Fits(f, k, g))
  }

  lemma DescribedListed(t: TokenList, fs: seq<FuncSpec>, k: nat, funcs: seq<Func>)
    requires FoundIn(t, fs) && Described(fs, k, funcs)
    ensures ListedAs(fs, k, funcs)
  {
    hide Shape, InOrder;
    forall f | f in fs ensures exists g :: g in funcs && Fits(f, k, g) {
      var i :| 0 <= i < |fs| && fs[i] == f;
      assert f.Found(t) && funcs[i] in funcs;
    }
    forall g | g in funcs && g.source == k ensures exists f :: f in fs && Fits(f, k, g) {
      var i :| 0 <= i < |funcs| && funcs[i] == g;
      assert fs[i] in fs && fs[i].Found(t);
    }
  }

  /** Functions of another file change nothing for file k. */
  lemma ListedWith(fs: seq<FuncSpec>, k: nat, funcs: seq<Func>, all: seq<Func>)
    requires ListedAs(fs, k, funcs) && (forall g :: g in funcs ==> g in all)
    requires forall g :: g in all && g !in funcs ==> g.source != k
    ensures ListedAs(fs, k, all)
  {
    hide Fits;
    forall f | f in fs ensures exists g :: g in all && Fits(f, k, g) {
      var g :| g in funcs && Fits(f, k, g);
      assert g in all;
    }
  }

  ghost predicate AllListedAs(found: seq<seq<FuncSpec>>, funcs: seq<Func>) {
    forall k :: 0 <= k < |found| ==> ListedAs(found[k], k, funcs)
  }

  lemma OneMoreFile(found: seq<seq<FuncSpec>>, fs: seq<FuncSpec>, funcs: seq<Func>, more: seq<Func>)
    requires AllListedAs(found, funcs) && (forall g :: g in funcs ==> g.source < |found|)
    requires (forall g :: g in more ==> g.source == |found|) && ListedAs(fs, |found|, more)
    ensures AllListedAs(found + [fs], funcs + more)
  {
    hide ListedAs;
    forall k | 0 <= k < |found + [fs]| ensures ListedAs((found + [fs])[k], k, funcs + more) {
      ListedWith((found + [fs])[k], k, if k < |found| then funcs else more, funcs + more);
    }
  }

  ghost predicate AllFound(sources: seq<TokenList>, found: seq<seq<FuncSpec>>)
    reads Objects(found)
  {
    |found| <= |sources| && forall k :: 0 <= k < |found| ==> FoundIn(sources[k], found[k])
  }

  /** Step 1 for one file: only header files are searched. */
  method FindInFile(t: TokenList, k: nat, filename: string) returns (ok: bool, fs: seq<FuncSpec>, funcs: seq<Func>)
    requires Lexed(t)
    ensures fresh(fs) && FoundIn(t, fs) && Described(fs, k, funcs)
    ensures !ok ==> Header(filename) && Open(t)
    ensures ok && Header(filename) ==> forall s: nat :: InlineAt(t, s) ==> Covered(fs, s)
    ensures !Header(filename) ==> fs == []
  {
    hide InlineAt, Covered, Closes, FuncSpec.Found, Header;
    ok, fs := true, [];
    if Header(filename) {
      fs, ok := FindInlineFunctions(t);
    }
    funcs := Describe(fs, k);
  }

  /** Step 1: the functions of all header files. */
  method FindFunctions(sources: seq<TokenList>, filenames: seq<string>)
    returns (closed: bool, found: seq<seq<FuncSpec>>, p: Program)
    requires |filenames| == |sources| && forall t :: t in sources ==> Lexed(t)
    ensures !closed ==> exists k :: 0 <= k < |sources| && Header(filenames[k]) && Open(sources[k])
    ensures closed ==> |found| == |sources| && Separated(found) && fresh(Objects(found)) && AllFound(sources, found)
    ensures closed ==> ProgramOf(sources, filenames, p) && AllListedAs(found, p.funcs)
  {
    hide FoundIn, InlineFunc, Complete, ListedAs, Covered, InlineAt, Closes, Described, Listed, AllListedAs, AllFound,
         Separated, Header, Apart;
    closed, found := true, [];
    NoFiles(sources, filenames);
    var funcs: seq<Func> := [];
    while |found| < |sources|
      invariant |found| <= |sources| && Separated(found) && fresh(Objects(found)) && AllFound(sources, found)
      invariant Listed(sources, filenames, |found|, funcs) && AllListedAs(found, funcs)
    {
      var n := |found|;
      assert sources[n] in sources;
      var ok, fs, more := FindInFile(sources[n], n, filenames[n]);
      if !ok {
        return false, [], Program(sources, []);
      }
      DescribedInline(sources, n, fs, more);
      FileComplete(sources[n], n, filenames[n], fs, more);
      DescribedListed(sources[n], fs, n, more);
      DescribedApart(sources[n], fs, n, more);
      ListedBelow(sources, filenames, n, funcs);
      ListMore(sources, filenames, n, funcs, more);
      OneMoreFile(found, fs, funcs, more);
      MoreObjects(found, fs);
      MoreFound(sources, found, fs);
      found, funcs := found + [fs], funcs + more;
    }
    p := Program(sources, funcs);
    ProgramOk(sources, filenames, funcs);
  }

  lemma FileComplete(t: TokenList, k: nat, filename: string, fs: seq<FuncSpec>, funcs: seq<Func>)
    requires Described(fs, k, funcs) && (!Header(filename) ==> fs == [])
    requires Header(filename) ==> forall s: nat :: InlineAt(t, s) ==> Covered(fs, s)
    ensures if Header(filename) then Complete(t, k, funcs) else funcs == []
  {
    hide InlineAt, Covered, Complete;
    if Header(filename) {
      DescribedComplete(t, k, fs, funcs);
    }
  }

  /** The program is what the files contain. */
  ghost predicate ProgramOf(sources: seq<TokenList>, filenames: seq<string>, p: Program) {
    p.sources == sources && p.Ok() && Listed(sources, filenames, |sources|, p.funcs)
  }

  lemma NoFiles(sources: seq<TokenList>, filenames: seq<string>)
    requires |filenames| == |sources|
    ensures Separated([]) && Objects([]) == {} && AllFound(sources, []) && AllListedAs([], [])
    ensures Listed(sources, filenames, 0, [])
  {
  }

  lemma MoreObjects(found: seq<seq<FuncSpec>>, fs: seq<FuncSpec>)
    requires Separated(found) && forall f :: f in fs ==> f !in Objects(found)
    ensures Separated(found + [fs]) && Objects(found + [fs]) == Objects(found) + (set f | f in fs)
  {
    var all := found + [fs];
    forall f ensures f in Objects(all) <==> f in Objects(found) || f in fs {
      if f in Objects(found) {
        var k, i :| 0 <= k < |found| && 0 <= i < |found[k]| && found[k][i] == f;
        assert all[k][i] == f;
      }
      if i :| 0 <= i < |fs| && fs[i] == f {
        assert all[|found|][i] == f;
      }
    }
    forall j, k, f | 0 <= j < k < |all| && f in all[j] ensures f !in all[k] {
      var i :| 0 <= i < |all[j]| && all[j][i] == f;
      assert found[j][i] in Objects(found);
    }
  }

  lemma MoreFound(sources: seq<TokenList>, found: seq<seq<FuncSpec>>, fs: seq<FuncSpec>)
    requires AllFound(sources, found) && |found| < |sources| && FoundIn(sources[|found|], fs)
    ensures AllFound(sources, found + [fs])
  {
    hide FoundIn;
  }

  lemma ProgramOk(sources: seq<TokenList>, filenames: seq<string>, funcs: seq<Func>)
    requires (forall t :: t in sources ==> Lexed(t)) && Listed(sources, filenames, |sources|, funcs)
    ensures ProgramOf(sources, filenames, Program(sources, funcs))
  {
    hide Lexed, InlineFunc, Complete, Header, Apart;
  }

  lemma ListedBelow(sources: seq<TokenList>, filenames: seq<string>, n: nat, funcs: seq<Func>)
    requires Listed(sources, filenames, n, funcs)
    ensures forall g :: g in funcs ==> g.source < n
  {
    hide InlineFunc, Complete, Header, Apart;
  }

  // ---------- step 4: the unsafe sections of all files ----------

  ghost predicate IsSection(sources: seq<TokenList>, s: Section) {
    && s.source < |sources|
    && var t := sources[s.source]; s.start < |t| && WardIf(t[s.start]) && BranchEnds(t, s.start, s.end)
  }

  /** The sections of the first n files. */
  ghost predicate SectionsTo(sources: seq<TokenList>, n: nat, sections: seq<Section>) {
    forall s :: s in sections <==> s.source < n && IsSection(sources, s)
  }

  lemma OneEnd(t: TokenList, s: nat, e: nat, e': nat)
    requires BranchEnds(t, s, e) && BranchEnds(t, s, e')
    ensures e == e'
  {
    hide Nesting;
    assert e < e' ==> Within(t, s, e);
    assert e' < e ==> Within(t, s, e');
  }

  method PairUp(k: nat, start: seq<nat>, end: seq<nat>) returns (sections: seq<Section>)
    requires |start| == |end|
    ensures forall s :: s in sections <==> exists i :: 0 <= i < |start| && s == Section(k, start[i], end[i])
  {
    sections := [];
    var i := 0;
    while i < |start|
      invariant i <= |start|
      invariant forall s :: s in sections <==> exists j :: 0 <= j < i && s == Section(k, start[j], end[j])
    {
      sections := sections + [Section(k, start[i], end[i])];
      i := i + 1;
    }
  }

  lemma PairsAreSections(sources: seq<TokenList>, k: nat, start: seq<nat>, end: seq<nat>, s: Section)
    requires k < |sources| && Paired(sources[k], start, end, |sources[k]|)
    ensures (exists i :: 0 <= i < |start| && s == Section(k, start[i], end[i]))
      <==> s.source == k && IsSection(sources, s)
  {
    hide BranchEnds, WardIf;
    if s.source == k && IsSection(sources, s) {
      var i :| 0 <= i < |start| && start[i] == s.start;
      OneEnd(sources[k], s.start, s.end, end[i]);
    }
  }

  ghost predicate AllPaired(sources: seq<TokenList>, start: seq<seq<nat>>, end: seq<seq<nat>>) {
    && |start| == |end| <= |sources|
    && forall k :: 0 <= k < |start| ==> Paired(sources[k], start[k], end[k], |sources[k]|)
  }

  /** Step 4: the sections of all files; `ok` is false when the code stops because some do not match up. */
  method FindSections(sources: seq<TokenList>)
    returns (ok: bool, start: seq<seq<nat>>, end: seq<seq<nat>>, sections: seq<Section>)
    ensures ok <==> forall t :: t in sources ==> !Mismatch(t)
    ensures ok ==> |start| == |sources| && AllPaired(sources, start, end) && SectionsTo(sources, |sources|, sections)
  {
    hide Mismatch, Paired, IsSection;
    ok, start, end, sections := true, [], [], [];
    while |start| < |sources|
      invariant |start| <= |sources| && AllPaired(sources, start, end) && SectionsTo(sources, |start|, sections)
      invariant forall k :: 0 <= k < |start| ==> !Mismatch(sources[k])
    {
      var k := |start|;
      var good, from, till := FindUnsafeSections(sources[k]);
      if !good {
        assert sources[k] in sources;
        return false, [], [], [];
      }
      LengthsAgree(sources[k], from, till);
      var here := PairUp(k, from, till);
      forall s ensures s in here <==> s.source == k && IsSection(sources, s) {
        PairsAreSections(sources, k, from, till, s);
      }
      start, end, sections := start + [from], end + [till], sections + here;
    }
  }

  lemma LengthsAgree(t: TokenList, start: seq<nat>, end: seq<nat>)
    requires Paired(t, start, end, |t|)
    ensures |start| == |end|
  {
  }

  lemma SectionsInside(p: Program, sections: seq<Section>)
    requires p.Ok() && SectionsTo(p.sources, |p.sources|, sections)
    ensures forall s :: s in sections ==> p.HasSection(s)
  {
    forall s | s in sections ensures p.HasSection(s) {
      SectionInside(p.sources[s.source], s.start, s.end);
    }
  }

  lemma SectionInside(t: TokenList, start: nat, end: nat)
    requires Lexed(t) && BranchEnds(t, start, end)
    ensures start <= end < |t| - 1
  {
  }

  /** A call of one of the names in an unsafe section of file k. */
  ghost predicate UnsafeCall(sources: seq<TokenList>, k: nat, names: set<string>, q: nat) {
    exists s :: SectionHolds(sources, k, names, q, s)
  }

  ghost predicate SectionHolds(sources: seq<TokenList>, k: nat, names: set<string>, q: nat, s: Section) {
    s.source == k && IsSection(sources, s) && CallAt(names, sources[k], s.start, s.end, q)
  }

  /** The calls in the sections of one file. */
  method UnsafeCalls(sources: seq<TokenList>, k: nat, names: set<string>, start: seq<nat>, end: seq<nat>)
    returns (calls: seq<nat>)
    requires k < |sources| && Lexed(sources[k]) && Paired(sources[k], start, end, |sources[k]|)
    ensures forall q: nat :: q in calls <==> UnsafeCall(sources, k, names, q)
  {
    hide WardIf, BranchEnds, CallAt;
    var t := sources[k];
    calls := [];
    var i := 0;
    while i < |start|
      invariant i <= |start|
      invariant forall q: nat :: q in calls <==> CalledBefore(t, names, start, end, i, q)
    {
      SectionInside(t, start[i], end[i]);
      var here, first := FindCalls(names, t, start[i], end[i], false);
      forall q: nat ensures q in calls + here <==> CalledBefore(t, names, start, end, i + 1, q) {
        NextSection(t, names, start, end, i, q);
      }
      calls := calls + here;
      i := i + 1;
    }
    forall q: nat ensures q in calls <==> UnsafeCall(sources, k, names, q) {
      CallsOfSections(sources, k, names, start, end, q);
    }
  }

  ghost predicate CalledBefore(t: TokenList, names: set<string>, start: seq<nat>, end: seq<nat>, n: nat, q: nat) {
    exists i :: 0 <= i < n && i < |start| && i < |end| && CallAt(names, t, start[i], end[i], q)
  }

  lemma NextSection(t: TokenList, names: set<string>, start: seq<nat>, end: seq<nat>, n: nat, q: nat)
    requires n < |start| == |end|
    ensures CalledBefore(t, names, start, end, n + 1, q)
      <==> (CalledBefore(t, names, start, end, n, q) || CallAt(names, t, start[n], end[n], q))
  {
    hide CallAt;
  }

  lemma CallsOfSections(sources: seq<TokenList>, k: nat, names: set<string>, start: seq<nat>, end: seq<nat>, q: nat)
    requires k < |sources| && Paired(sources[k], start, end, |sources[k]|)
    ensures CalledBefore(sources[k], names, start, end, |start|, q) <==> UnsafeCall(sources, k, names, q)
  {
    hide CallAt, IsSection;
    LengthsAgree(sources[k], start, end);
    hide Paired;
    if CalledBefore(sources[k], names, start, end, |start|, q) {
      var i :| 0 <= i < |start| && CallAt(names, sources[k], start[i], end[i], q);
      PairsAreSections(sources, k, start, end, Section(k, start[i], end[i]));
      assert SectionHolds(sources, k, names, q, Section(k, start[i], end[i]));
    }
    if s :| SectionHolds(sources, k, names, q, s) {
      PairsAreSections(sources, k, start, end, s);
    }
  }

  // ---------- steps 8 and 9: what becomes of one file ----------

  datatype FileResult = FileResult(updated: TokenList, copies: seq<Copy>, rewritten: TokenList)

  /** The rewritten file is the updated one with the code of each copy right behind its stretch, and with nothing else
      but line directives and line ends; without the insertions it is the updated one. */
  ghost predicate Composed(r: FileResult, filename: string, linedirs: bool) {
    && Placed(r.updated, r.copies) && r.updated != []
    && r.rewritten == Whole(AllParts(r.updated, r.copies, filename, linedirs))
    && Originals(AllParts(r.updated, r.copies, filename, linedirs)) == r.updated
    && Woven(r.rewritten, r.updated, r.copies, filename, linedirs)
  }

  /** The copy of function g: its stretch is that of the function with the blanks around it, and its code differs from
      the stretch by the name of the function and the calls of selected functions in the body, from `first` on. */
  ghost predicate CopyOf(t: TokenList, updated: TokenList, used: set<string>, g: Func, c: Copy) {
    exists namepos: nat, body: nat, first: nat :: CopyAround(t, updated, used, g, c, namepos, body, first)
  }

  ghost predicate CopyAround(t: TokenList, updated: TokenList, used: set<string>, g: Func, c: Copy,
                             namepos: nat, body: nat, first: nat)
  {
    && Shape(t, g.start, namepos, body, g.end) && t[namepos].str == g.name == c.name
    && IsBodyStart(updated, g.start, first) && Widened(updated, g.start, g.end, c.start, c.end)
    && UnsafeCode(c.code, updated, used, g.name, namepos, first, g.end, c.start, c.end)
  }

  /** In the updated file exactly the calls of selected functions in unsafe sections have their unsafe names. */
  ghost predicate UpdatedRight(sources: seq<TokenList>, k: nat, used: set<string>, updated: TokenList)
    requires k < |sources|
  {
    var t := sources[k];
    |updated| == |t| && forall q: nat :: q < |t| ==>
      updated[q] == if UnsafeCall(sources, k, used, q) then Token(t[q].sym, UnsafeName(t[q].str)) else t[q]
  }

  /** Function g of file k gets a copy: it is selected and not skipped. */
  ghost predicate ToCopy(p: Program, k: nat, used: set<string>, g: Func) {
    g in p.funcs && g.source == k && g.name in used && !Skipped(FuncNames(p), g.name)
  }

  /** There are copies of just these functions. */
  ghost predicate CopiesRight(p: Program, k: nat, used: set<string>, r: FileResult)
    requires k < |p.sources|
  {
    && (forall g :: ToCopy(p, k, used, g) ==> HasCopy(p, k, used, r, g))
    && (forall c :: c in r.copies ==> HasFunction(p, k, used, r, c))
  }

  ghost predicate HasCopy(p: Program, k: nat, used: set<string>, r: FileResult, g: Func)
    requires k < |p.sources|
  {
    exists c :: c in r.copies && CopyOf(p.sources[k], r.updated, used, g, c)
  }

  ghost predicate HasFunction(p: Program, k: nat, used: set<string>, r: FileResult, c: Copy)
    requires k < |p.sources|
  {
    exists g :: ToCopy(p, k, used, g) && CopyOf(p.sources[k], r.updated, used, g, c)
  }

  ghost predicate FileRight(p: Program, k: nat, used: set<string>, r: FileResult, filename: string, linedirs: bool)
    requires k < |p.sources|
  {
    UpdatedRight(p.sources, k, used, r.updated) && Composed(r, filename, linedirs) && CopiesRight(p, k, used, r)
  }

  method CopyList(funcs: seq<FuncSpec>) returns (copies: seq<Copy>)
    ensures copies == Copies(funcs)
  {
    copies := [];
    while |copies| < |funcs|
      invariant |copies| <= |funcs| && copies == Copies(funcs)[..|copies|]
    {
      var f := funcs[|copies|];
      copies := copies + [Copy(f.name, f.start, f.end, f.unsafeCode)];
    }
  }

  lemma CopyMadeOf(t: TokenList, updated: TokenList, used: set<string>, f: FuncSpec, k: nat, g: Func)
    requires f.Done(updated, used) && Fits(f, k, g)
    requires NamedShape(t, f)
    ensures CopyOf(t, updated, used, g, Copy(f.name, f.start, f.end, f.unsafeCode))
  {
    hide Shape, IsBodyStart, Widened, UnsafeCode;
    var c := Copy(f.name, f.start, f.end, f.unsafeCode);
    assert CopyAround(t, updated, used, g, c, f.namepos, f.body, f.first);
  }

  /** In a copy every call of a selected function in the body has the unsafe name; token p of the stretch is one later
      in the copy, behind the conditional. */
  lemma CallsRenamed(t: TokenList, updated: TokenList, used: set<string>, g: Func, c: Copy, first: nat, p: nat)
    requires CopyOf(t, updated, used, g, c) && IsBodyStart(updated, g.start, first)
      && CallAt(used, updated, first, g.end, p)
    ensures c.start <= p <= c.end && |c.code| > p - c.start + 1
    ensures c.code[p - c.start + 1] == Token(Ident, UnsafeName(updated[p].str))
  {
    hide Shape, CallForm, Guarded, IsCopy;
    var namepos: nat, body: nat, first': nat :| CopyAround(t, updated, used, g, c, namepos, body, first');
    assert first' == first;
    CallOnIdent(updated, g.end, p);
    var copy: TokenList :| Guarded(c.code, copy, g.name)
      && IsCopy(copy, updated, used, namepos, first, g.end, c.start, c.end);
    CopyAt(copy, updated, used, namepos, first, g.end, c.start, c.end, p);
    GuardedAt(c.code, copy, g.name, p - c.start);
  }

  lemma CallOnIdent(t: TokenList, end: nat, p: nat)
    requires CallForm(t, end, p)
    ensures p <= end < |t| && t[p].sym == Ident
  {
  }

  /** The copy has the unsafe name of its function before a parenthesis, whether or not the name was changed in the file
      before. */
  lemma CopyNames(sources: seq<TokenList>, k: nat, updated: TokenList, used: set<string>, g: Func, c: Copy)
    requires k < |sources| && UpdatedRight(sources, k, used, updated) && CopyOf(sources[k], updated, used, g, c)
      && g.name in used
    ensures exists i ::
      0 <= i < |c.code| - 1 && c.code[i] == Token(Ident, UnsafeName(g.name)) && c.code[i + 1].sym == LPar
  {
    var t := sources[k];
    hide CallAt, Guarded, IsCopy, Copied, IsSection, IsBodyStart;
    var namepos: nat, body: nat, first: nat :| CopyAround(t, updated, used, g, c, namepos, body, first);
    var copy: TokenList :| Guarded(c.code, copy, g.name)
      && IsCopy(copy, updated, used, namepos, first, g.end, c.start, c.end);
    ShapeName(t, g.start, namepos, body, g.end);
    MarkedTwice(t[namepos], updated[namepos], used);
    NameInCopy(copy, updated, used, g.name, namepos, first, g.end, c.start, c.end, namepos - c.start, c.code);
  }

  lemma ShapeName(t: TokenList, start: nat, namepos: nat, body: nat, end: nat)
    requires Shape(t, start, namepos, body, end)
    ensures start <= namepos && namepos + 1 < end < |t| - 1 && t[namepos].sym == Ident && t[namepos + 1].sym == LPar
  {
  }

  lemma NameInCopy(copy: TokenList, t: TokenList, filter: set<string>, name: string, namepos: nat, first: nat, end: nat,
                   start': nat, end': nat, d: nat, code: TokenList)
    requires IsCopy(copy, t, filter, namepos, first, end, start', end') && namepos == start' + d && namepos < end' < |t|
    requires Guarded(code, copy, name) && t[namepos + 1].sym == LPar
    requires Marked(t[namepos], filter) == Token(Ident, UnsafeName(name))
    ensures exists i :: 0 <= i < |code| - 1 && code[i] == Token(Ident, UnsafeName(name)) && code[i + 1].sym == LPar
  {
    hide IsCopy, Guarded, Marked, Copied;
    CopyAt(copy, t, filter, namepos, first, end, start', end', namepos);
    CopyAt(copy, t, filter, namepos, first, end, start', end', namepos + 1);
    GuardedAt(code, copy, name, d);
    GuardedAt(code, copy, name, d + 1);
    var i := d + 1;
    assert code[i] == Token(Ident, UnsafeName(name)) && code[i + 1].sym == LPar;
  }

  lemma MarkedTwice(k: Token, k': Token, used: set<string>)
    requires k.str in used && (k' == k || k' == Marked(k, used))
    ensures Marked(k', used) == Token(k.sym, UnsafeName(k.str))
  {
    UnsafeTwice(k.str);
  }

  lemma CopyAt(copy: TokenList, t: TokenList, filter: set<string>, namepos: nat, first: nat, end: nat, start': nat,
               end': nat, p: nat)
    requires IsCopy(copy, t, filter, namepos, first, end, start', end') && start' <= p <= end'
    ensures end' < |t| && |copy| == end' - start' + 1 && copy[p - start'].sym == t[p].sym
    ensures p == namepos || CallAt(filter, t, first, end, p) ==> copy[p - start'] == Marked(t[p], filter)
  {
    hide CallAt;
    assert copy[p - start'] == Copied(t, filter, namepos, first, end, p);
  }

  lemma GuardedAt(code: TokenList, copy: TokenList, name: string, i: nat)
    requires Guarded(code, copy, name) && i < |copy|
    ensures |code| > |copy| + 1 && code[i + 1] == copy[i]
  {
    assert code[1..|copy| + 1][i] == code[i + 1];
  }

  lemma UpdateIsRight(p: Program, k: nat, calls: seq<nat>, ward: set<string>, used: set<string>, updated: TokenList)
    requires k < |p.sources| && used <= ward && |updated| == |p.sources[k]|
    requires forall q: nat :: q in calls <==> UnsafeCall(p.sources, k, ward, q)
    requires forall q: nat ::
      q < |updated| ==> updated[q] == if q in calls then Marked(p.sources[k][q], used) else p.sources[k][q]
    ensures UpdatedRight(p.sources, k, used, updated)
  {
    var t := p.sources[k];
    hide IsSection;
    forall q: nat | q < |t|
      ensures updated[q] == if UnsafeCall(p.sources, k, used, q) then Token(t[q].sym, UnsafeName(t[q].str)) else t[q]
    {
      CallOfUsed(p.sources, k, ward, used, q);
    }
  }

  /** The calls of selected functions among those recorded. */
  lemma CallOfUsed(sources: seq<TokenList>, k: nat, ward: set<string>, used: set<string>, q: nat)
    requires k < |sources| && used <= ward && q < |sources[k]|
    ensures UnsafeCall(sources, k, used, q) <==> UnsafeCall(sources, k, ward, q) && sources[k][q].str in used
  {
    hide IsSection, CallForm;
    if s :| SectionHolds(sources, k, used, q, s) {
      assert SectionHolds(sources, k, ward, q, s);
    }
    if s :| SectionHolds(sources, k, ward, q, s) && sources[k][q].str in used {
      assert SectionHolds(sources, k, used, q, s);
    }
  }

  /** Steps 8 and 9 for one file. */
  method FinishFile(p: Program, k: nat, fs: seq<FuncSpec>, names: set<string>, ward: set<string>, used: set<string>,
                    skip: set<string>, calls: seq<nat>, filename: string, linedirs: bool) returns (r: FileResult)
    requires k < |p.sources| && Lexed(p.sources[k]) && FoundIn(p.sources[k], fs) && ListedAs(fs, k, p.funcs)
    requires used <= ward && used <= names == FuncNames(p) && forall n :: n in skip <==> Skipped(FuncNames(p), n)
    requires forall q: nat :: q in calls <==> UnsafeCall(p.sources, k, ward, q)
    modifies fs
    ensures FileRight(p, k, used, r, filename, linedirs)
  {
    hide FuncSpec.Done, Skipped, UnsafeCall, Shape, Whole, Originals, AllParts, Woven, CopyOf, Placed, ListedAs,
         NamedShape;
    var t := p.sources[k];
    CallsInside(p.sources, k, ward, calls);
    forall f | f in fs ensures NamedShape(t, f) {
      assert f.Found(t);
      FoundShape(t, f);
    }
    var selected, updated, rewritten := ProcessFile(t, fs, names, used, skip, calls, filename, linedirs);
    var copies := CopyList(selected);
    r := FileResult(updated, copies, rewritten);
    UpdateIsRight(p, k, calls, ward, used, updated);
    CopiesAreRight(p, k, fs, selected, used, skip, r);
  }

  /** What was found, which does not change with the function later. */
  ghost predicate NamedShape(t: TokenList, f: FuncSpec) {
    Shape(t, f.start0, f.namepos, f.body, f.end0) && t[f.namepos].str == f.name
  }

  lemma FoundShape(t: TokenList, f: FuncSpec)
    requires f.Found(t)
    ensures NamedShape(t, f)
  {
  }

  lemma CallsInside(sources: seq<TokenList>, k: nat, names: set<string>, calls: seq<nat>)
    requires k < |sources| && forall q: nat :: q in calls <==> UnsafeCall(sources, k, names, q)
    ensures forall q :: q in calls ==> q < |sources[k]|
  {
    hide IsSection;
  }

  lemma CopiesAreRight(p: Program, k: nat, fs: seq<FuncSpec>, selected: seq<FuncSpec>, used: set<string>,
                       skip: set<string>, r: FileResult)
    requires k < |p.sources| && ListedAs(fs, k, p.funcs) && r.copies == Copies(selected)
    requires forall f :: f in selected <==> f in fs && f.name in used && f.name !in skip
    requires forall f :: f in selected ==> f.Done(r.updated, used)
    requires forall f :: f in fs ==> NamedShape(p.sources[k], f)
    requires forall n :: n in skip <==> Skipped(FuncNames(p), n)
    ensures CopiesRight(p, k, used, r)
  {
    hide Skipped, CopyOf, FuncSpec.Done, NamedShape;
    var t := p.sources[k];
    forall g | ToCopy(p, k, used, g) ensures HasCopy(p, k, used, r, g) {
      var f :| f in fs && Fits(f, k, g);
      var i :| 0 <= i < |selected| && selected[i] == f;
      CopyMadeOf(t, r.updated, used, f, k, g);
      assert r.copies[i] in r.copies;
    }
    forall c | c in r.copies ensures HasFunction(p, k, used, r, c) {
      var i :| 0 <= i < |r.copies| && r.copies[i] == c;
      assert selected[i] in selected;
      var g :| g in p.funcs && Fits(selected[i], k, g);
      CopyMadeOf(t, r.updated, used, selected[i], k, g);
      assert ToCopy(p, k, used, g);
    }
  }

  // ---------- definitions inside sections ----------

  /** Token `pos` and the one behind it are inside a section of file k. */
  ghost predicate InSection(sources: seq<TokenList>, k: nat, pos: nat) {
    exists s: Section :: s.source == k && IsSection(sources, s) && s.start < pos < s.end
  }

  /** The name at the definition of function g is what it was. */
  ghost predicate KeepsName(t: TokenList, updated: TokenList, g: Func) {
    forall namepos: nat, body: nat :: Shape(t, g.start, namepos, body, g.end) ==>
      namepos < |updated| && updated[namepos].str == g.name
  }

  ghost predicate DefinedInSection(sources: seq<TokenList>, g: Func)
    requires g.source < |sources|
  {
    exists namepos: nat, body: nat ::
      Shape(sources[g.source], g.start, namepos, body, g.end) && InSection(sources, g.source, namepos)
  }

  lemma OneName(t: TokenList, start: nat, namepos: nat, body: nat, end: nat, namepos': nat, body': nat, end': nat)
    requires Shape(t, start, namepos, body, end) && Shape(t, start, namepos', body', end')
    ensures namepos == namepos'
  {
    assert t[namepos + 1].sym == LPar && t[namepos' + 1].sym == LPar;
  }

  /** A definition has the form of a call, so the name of a selected function is changed where it is defined just when
      that is inside a section. */
  lemma NameChanged(sources: seq<TokenList>, k: nat, used: set<string>, updated: TokenList,
                    start: nat, namepos: nat, body: nat, end: nat)
    requires k < |sources| && UpdatedRight(sources, k, used, updated) && Shape(sources[k], start, namepos, body, end)
    ensures namepos < |updated|
    ensures var name := sources[k][namepos].str;
      updated[namepos].str == name <==> !(name in used && UnsafeName(name) != name && InSection(sources, k, namepos))
  {
    hide Starter, Closes;
    var t := sources[k];
    ShapeName(t, start, namepos, body, end);
    hide Shape;
    if InSection(sources, k, namepos) && t[namepos].str in used {
      var s: Section :| s.source == k && IsSection(sources, s) && s.start < namepos < s.end;
      SectionEnd(t, s.start, s.end);
      assert CallForm(t, s.end, namepos);
      assert SectionHolds(sources, k, used, namepos, s);
    }
    if s :| SectionHolds(sources, k, used, namepos, s) {
      SectionName(sources, s, namepos);
      assert InSection(sources, k, namepos);
    }
  }

  lemma SectionEnd(t: TokenList, start: nat, end: nat)
    requires BranchEnds(t, start, end)
    ensures start < end < |t|
  {
  }

  lemma SectionName(sources: seq<TokenList>, s: Section, pos: nat)
    requires IsSection(sources, s) && CallForm(sources[s.source], s.end, pos) && s.start <= pos
    ensures s.start < pos < s.end
  {
    hide BranchEnds, Mentions;
  }

  lemma NamedAt(sources: seq<TokenList>, g: Func) returns (namepos: nat, body: nat)
    requires InlineFunc(sources, g)
    ensures Shape(sources[g.source], g.start, namepos, body, g.end)
    ensures namepos < |sources[g.source]| && sources[g.source][namepos].str == g.name
  {
    namepos, body :| Shape(sources[g.source], g.start, namepos, body, g.end)
      && g.name == sources[g.source][namepos].str;
  }

  /** The updated file keeps the name of each of its definitions just when no selected function, other than one whose
      name is unsafe already, is defined in a section. */
  lemma DefinitionsKept(sources: seq<TokenList>, filenames: seq<string>, p: Program, k: nat, used: set<string>,
                        updated: TokenList)
    requires ProgramOf(sources, filenames, p) && k < |sources| && UpdatedRight(sources, k, used, updated)
    ensures (forall g :: g in p.funcs && g.source == k ==> KeepsName(sources[k], updated, g))
      <==> (forall g ::
        g in p.funcs && g.source == k && g.name in used && UnsafeName(g.name) != g.name ==>
        !DefinedInSection(sources, g))
  {
    hide Complete, Header, UpdatedRight, Shape, InSection, Program.Ok;
    forall g | g in p.funcs && g.source == k
      ensures KeepsName(sources[k], updated, g)
        <==> !(g.name in used && UnsafeName(g.name) != g.name && DefinedInSection(sources, g))
    {
      var namepos, body := NamedAt(sources, g);
      NameChanged(sources, k, used, updated, g.start, namepos, body, g.end);
      forall namepos': nat, body': nat | Shape(sources[k], g.start, namepos', body', g.end)
        ensures namepos' == namepos
      {
        OneName(sources[k], g.start, namepos, body, g.end, namepos', body', g.end);
      }
    }
  }

  lemma LostShape(t: TokenList)
    requires |t| == 10 && t[1].sym == Static && t[2].sym == Inline && t[3].sym == Ident && t[4].sym == LPar
    requires t[5].sym == RPar && t[6].sym == LBrace && t[7].sym == RBrace
    ensures Shape(t, 1, 3, 6, 7)
  {
    assert Depth(t, 6, 6) == 0 && Depth(t, 6, 7) == 1 && Depth(t, 6, 8) == 0;
  }

  lemma LostSection(t: TokenList)
    requires |t| == 10 && t[0].sym == PPIf && t[8].sym == PPEndif
    requires forall i :: 0 < i < 8 ==> t[i].sym != PPIf && !Branch(t[i].sym)
    ensures BranchEnds(t, 0, 8)
  {
    assert Nesting(t, 0, 0) == 0 && Nesting(t, 0, 1) == 1 && Nesting(t, 0, 2) == 1 && Nesting(t, 0, 3) == 1;
    assert Nesting(t, 0, 4) == 1 && Nesting(t, 0, 5) == 1 && Nesting(t, 0, 6) == 1 && Nesting(t, 0, 7) == 1;
  }

  lemma IfndefMentions(s: string)
    requires s == "#ifndef WARD_ENABLED"
    ensures Mentions(s, WARD)
  {
    assert s[8..][..|WARD|] == WARD;
  }

  lemma UpperPrefix()
    ensures UnsafeName("PTR_BAG") == "UNSAFE_PTR_BAG"
  {
    assert "PTR_BAG"[0] == 'P';
  }

  lemma LostSelected(t: TokenList, p: Program, s: Section)
    requires p.Ok() && p.HasSection(s) && p == Program([t], [Func(0, 1, 7, "PTR_BAG")]) && s == Section(0, 0, 8)
    requires |t| == 10 && t[3].sym == Ident && t[3].str == "PTR_BAG" && t[4].sym == LPar
    ensures RootName(p, "PTR_BAG") && ReachedName(p, [s], "PTR_BAG") && "PTR_BAG" != "CHANGED_BAG"
  {
    hide CallRelation, CallForm;
    NextIsCall(t, 8, 3);
    assert SectionCall(p, s, "PTR_BAG", 3);
    assert p.funcs[0].name == "PTR_BAG";
    assert Direct(p, [s], 0) && ReachesRoot(p, 0);
    assert RootName(p, p.funcs[0].name) && Reached(p, [s], 0);
    assert "PTR_BAG"[0] == 'P' && "CHANGED_BAG"[0] == 'C';
  }

  /** A file with PTR_BAG defined in a section. */
  ghost predicate LostFile(t: TokenList) {
    && |t| == 10 && t[0].sym == PPIf && t[0].str == "#ifndef WARD_ENABLED" && t[1].sym == Static && t[2].sym == Inline
    && t[3].sym == Ident && t[3].str == "PTR_BAG" && t[4].sym == LPar && t[5].sym == RPar && t[6].sym == LBrace
    && t[7].sym == RBrace && t[8].sym == PPEndif && t[9].sym == EOF
  }

  /** Its definition counts as a call, PTR_BAG is selected, and the definition loses its name. */
  lemma DefinitionLost(t: TokenList, p: Program, s: Section, used: set<string>, updated: TokenList)
    requires LostFile(t) && p == Program([t], [Func(0, 1, 7, "PTR_BAG")]) && s == Section(0, 0, 8)
    requires p.Ok() ==> SelectionRight(p, [s], used)
    requires UpdatedRight([t], 0, used, updated)
    ensures |t| == 10 && p.Ok() && Shape(t, 1, 3, 6, 7) && IsSection([t], s) && "PTR_BAG" in used
    ensures |updated| == |t| && updated[3].str == "UNSAFE_PTR_BAG"
  {
    hide Shape, BranchEnds, Mentions, ReachedName, RootName, UpdatedRight;
    assert p.Ok() && p.HasSection(s);
    LostShape(t);
    LostSection(t);
    IfndefMentions(t[0].str);
    LostSelected(t, p, s);
    UpperPrefix();
    assert InSection([t], 0, 3);
    NameChanged([t], 0, used, updated, 1, 3, 6, 7);
    ChangedTo([t], 0, used, updated, 3);
  }

  lemma ChangedTo(sources: seq<TokenList>, k: nat, used: set<string>, updated: TokenList, q: nat)
    requires k < |sources| && UpdatedRight(sources, k, used, updated) && q < |updated|
      && updated[q].str != sources[k][q].str
    ensures |updated| == |sources[k]| && updated[q].str == UnsafeName(sources[k][q].str)
  {
    hide UnsafeCall;
  }

  // ---------- the whole run ----------

  ghost predicate SelectionRight(p: Program, sections: seq<Section>, used: set<string>)
    requires p.Ok()
  {
    forall n :: n in used <==> n != "CHANGED_BAG" && ReachedName(p, sections, n) && RootName(p, n)
  }

  ghost predicate FilesRight(p: Program, used: set<string>, results: seq<FileResult>, filenames: seq<string>,
                             linedirs: bool)
  {
    && |results| <= |p.sources| == |filenames|
    && forall k :: 0 <= k < |results| ==> FileRight(p, k, used, results[k], filenames[k], linedirs)
  }

  /** The name is that of an inline function of the files or of a copy. */
  ghost predicate Defined(p: Program, results: seq<FileResult>, name: string) {
    name in FuncNames(p) || exists r, c :: r in results && c in r.copies && UnsafeName(c.name) == name
  }

  datatype Status = NotClosed | NotMatched | AllDone

  /** Main on lexed files, up to the rewritten token lists. */
  method Transform(sources: seq<TokenList>, filenames: seq<string>, linedirs: bool)
    returns (status: Status, p: Program, sections: seq<Section>, used: set<string>, results: seq<FileResult>)
    requires |filenames| == |sources| && forall t :: t in sources ==> Lexed(t)
    ensures status == NotClosed ==> exists k :: 0 <= k < |sources| && Header(filenames[k]) && Open(sources[k])
    ensures status == NotMatched ==> exists t :: t in sources && Mismatch(t)
    ensures status == AllDone ==> ProgramOf(sources, filenames, p)
    ensures status == AllDone ==>
      (forall t :: t in sources ==> !Mismatch(t)) && SectionsTo(sources, |sources|, sections)
    ensures status == AllDone ==> forall n :: n in used ==>
      (Defined(p, results, UnsafeName(n)) <==> !Skipped(FuncNames(p), n) || UnsafeName(n) in FuncNames(p))
    ensures status == AllDone ==> forall n :: n in used ==>
      && (!Skipped(FuncNames(p), n) ==> CopyInText(results, n) && InText(results, UnsafeName(n)))
      && (UnsafeName(n) in FuncNames(p) ==> InText(results, UnsafeName(n)))
    ensures status == AllDone ==> SelectionRight(p, sections, used)
    ensures status == AllDone ==> |results| == |sources| && FilesRight(p, used, results, filenames, linedirs)
  {
    hide FoundIn, InlineFunc, Complete, ListedAs, Mismatch, Paired, IsSection, FileRight, Skipped, UnsafeCall, Listed,
         ReachedName, RootName, OnPath, Objects, Header, InText, CopyInText;
    sections, used, results := [], {}, [];
    var closed, found;
    closed, found, p := FindFunctions(sources, filenames);
    if !closed {
      return NotClosed, p, [], {}, [];
    }
    var matched, start, end;
    matched, start, end, sections := FindSections(sources);
    if !matched {
      return NotMatched, p, [], {}, [];
    }
    SectionsInside(p, sections);
    var ward;
    used, ward := Select(p, sections);
    var names := AllNames(p);
    var skip := UnsafeNames(p);
    UsedAreNames(p, used, ward);
    while |results| < |sources|
      invariant |results| <= |sources| && FilesRight(p, used, results, filenames, linedirs)
      invariant fresh(Objects(found)) && forall k :: |results| <= k < |sources| ==> FoundIn(sources[k], found[k])
    {
      var k := |results|;
      assert sources[k] in sources;
      OwnObjects(found, k);
      var calls := UnsafeCalls(sources, k, ward, start[k], end[k]);
      var r := FinishFile(p, k, found[k], names, ward, used, skip, calls, filenames[k], linedirs);
      results := results + [r];
    }
    status := AllDone;
    forall n | n in used
      ensures Defined(p, results, UnsafeName(n)) <==> !Skipped(FuncNames(p), n) || UnsafeName(n) in FuncNames(p)
    {
      RenamedDefined(p, used, results, filenames, linedirs, n);
    }
    forall n | n in used
      ensures !Skipped(FuncNames(p), n) ==> CopyInText(results, n) && InText(results, UnsafeName(n))
      ensures UnsafeName(n) in FuncNames(p) ==> InText(results, UnsafeName(n))
    {
      DefinitionInText(sources, filenames, p, used, results, linedirs, n);
    }
  }

  lemma OwnObjects(found: seq<seq<FuncSpec>>, k: nat)
    requires k < |found| && Separated(found)
    ensures forall i :: 0 <= i < |found[k]| ==> found[k][i] in Objects(found)
    ensures forall j, i {:trigger found[j][i]} :: k < j < |found| && 0 <= i < |found[j]| ==> found[j][i] !in found[k]
  {
    forall j, i {:trigger found[j][i]} | k < j < |found| && 0 <= i < |found[j]| ensures found[j][i] !in found[k] {
      assert found[j][i] in found[j];
    }
  }

  lemma UsedAreNames(p: Program, used: set<string>, ward: set<string>)
    requires p.Ok() && (forall n :: n in ward <==> RootName(p, n)) && forall n :: n in used ==> RootName(p, n)
    ensures used <= ward && used <= FuncNames(p)
  {
    hide ReachesRoot;
    forall n | n in used ensures n in FuncNames(p) {
      var j: nat :| j < |p.funcs| && p.funcs[j].name == n;
      assert p.funcs[j] in p.funcs;
    }
  }

  /** After a whole run, a call that was renamed finds a definition in the files just when its function is not skipped
      or the files have a function with exactly the unsafe name. */
  lemma RenamedDefined(p: Program, used: set<string>, results: seq<FileResult>, filenames: seq<string>, linedirs: bool,
                       name: string)
    requires p.Ok() && |results| == |p.sources| && FilesRight(p, used, results, filenames, linedirs)
    requires used <= FuncNames(p) && name in used
    ensures Defined(p, results, UnsafeName(name))
      <==> (!Skipped(FuncNames(p), name) || UnsafeName(name) in FuncNames(p))
  {
    var names := FuncNames(p);
    hide Skipped, FileRight, Program.Ok, FilesRight;
    NamedWhen(names, used, name);
    if Named(names, used, name) && UnsafeName(name) !in names {
      var c :| c in used && !Skipped(names, c) && UnsafeName(c) == UnsafeName(name);
      CopyMade(p, used, results, filenames, linedirs, c);
    }
    forall r, c | r in results && c in r.copies && UnsafeName(c.name) == UnsafeName(name)
      ensures Named(names, used, name)
    {
      CopiedNamed(p, used, results, filenames, linedirs, r, c);
    }
  }

  // ---------- definitions in the text ----------

  /** A rewritten file has an inline function of that name in its text. */
  ghost predicate InText(results: seq<FileResult>, name: string) {
    exists r :: r in results && DefinedIn(r.rewritten, name)
  }

  /** A rewritten file has one of the unsafe name under the guard in its text. */
  ghost predicate CopyInText(results: seq<FileResult>, name: string) {
    exists r :: r in results && CopyIn(r.rewritten, name)
  }

  lemma UpdatedForm(sources: seq<TokenList>, k: nat, used: set<string>, updated: TokenList)
    requires k < |sources| && UpdatedRight(sources, k, used, updated)
    ensures Updated(sources[k], updated, used)
  {
    hide IsSection, CallForm;
  }

  lemma CopyCode(t: TokenList, updated: TokenList, used: set<string>, g: Func, c: Copy)
    requires Updated(t, updated, used) && CopyOf(t, updated, used, g, c) && g.name in used
    requires |updated| == |t| && forall q :: 0 <= q < |t| ==> updated[q] == t[q] || updated[q] == Marked(t[q], used)
    ensures CopyIn(c.code, g.name) && c.end < |updated| - 1
  {
    hide Shape, Widened, UnsafeCode, Marked, Updated, CopyIn, IsBodyStart;
    var namepos: nat, body: nat, first: nat :| CopyAround(t, updated, used, g, c, namepos, body, first);
    SameShape(t, updated, used, g.start, namepos, body, g.end);
    ShapeName(t, g.start, namepos, body, g.end);
    MarkedTwice(t[namepos], updated[namepos], used);
    CodeDefines(c.code, updated, used, g.name, namepos, body, first, g.start, g.end, c.start, c.end);
    WidenedShape(updated, g.start, namepos, body, g.end, c.start, c.end);
  }

  lemma UpdatedTokens(sources: seq<TokenList>, k: nat, used: set<string>, updated: TokenList)
    requires k < |sources| && UpdatedRight(sources, k, used, updated)
    ensures |updated| == |sources[k]|
    ensures forall q :: 0 <= q < |updated| ==>
      updated[q] == sources[k][q] || updated[q] == Marked(sources[k][q], used)
  {
    hide IsSection, CallForm;
  }

  /** The copy of a function is in the text of its rewritten file. */
  lemma CopyInFile(p: Program, k: nat, used: set<string>, r: FileResult, filename: string, linedirs: bool, g: Func)
    requires k < |p.sources| && FileRight(p, k, used, r, filename, linedirs) && ToCopy(p, k, used, g)
    ensures CopyIn(r.rewritten, g.name)
  {
    hide UpdatedRight, CopyOf, Skipped, Updated, CopyIn, Woven, HasFunction;
    assert HasCopy(p, k, used, r, g);
    var c :| c in r.copies && CopyOf(p.sources[k], r.updated, used, g, c);
    UpdatedForm(p.sources, k, used, r.updated);
    UpdatedTokens(p.sources, k, used, r.updated);
    CopyCode(p.sources[k], r.updated, used, g, c);
    var at := CodeStands(r.rewritten, r.updated, r.copies, filename, linedirs, c);
    CopyMoves(c.code, r.rewritten, g.name, at);
  }

  /** The stretch of a copy ends behind its function and before the next one starts. */
  lemma EndsOutside(t: TokenList, updated: TokenList, used: set<string>, g: Func, c: Copy, h: Func, namepos: nat,
                    body: nat)
    requires CopyOf(t, updated, used, g, c) && Shape(updated, h.start, namepos, body, h.end)
    requires (g.start == h.start && g.end == h.end) || g.end < h.start || h.end < g.start
    ensures !(h.start <= c.end < h.end)
  {
    hide Closes, IsBodyStart, UnsafeCode;
    var namepos': nat, body': nat, first: nat :| CopyAround(t, updated, used, g, c, namepos', body', first);
  }

  lemma ApartPair(funcs: seq<Func>, g: Func, h: Func)
    requires Apart(funcs) && g in funcs && h in funcs && g.source == h.source
    ensures g == h || g.end < h.start || h.end < g.start
  {
    var i, j :| 0 <= i < |funcs| && 0 <= j < |funcs| && funcs[i] == g && funcs[j] == h;
  }

  /** A function whose name is unsafe already is in the text of its rewritten file. */
  lemma KeptInFile(sources: seq<TokenList>, p: Program, k: nat, used: set<string>, r: FileResult, filename: string,
                   linedirs: bool, h: Func)
    requires k < |p.sources| && FileRight(p, k, used, r, filename, linedirs) && p.sources == sources && Apart(p.funcs)
    requires h in p.funcs && h.source == k && InlineFunc(sources, h) && UnsafeName(h.name) == h.name
    ensures DefinedIn(r.rewritten, h.name)
  {
    hide UpdatedRight, CopyOf, Skipped, Updated, DefinedIn, Woven, Shape, HasCopy, Apart;
    var namepos, body := NamedAt(sources, h);
    UpdatedForm(sources, k, used, r.updated);
    UpdatedTokens(sources, k, used, r.updated);
    SameShape(sources[k], r.updated, used, h.start, namepos, body, h.end);
    forall c | c in r.copies ensures !(h.start <= c.end < h.end) {
      assert HasFunction(p, k, used, r, c);
      var g :| ToCopy(p, k, used, g) && CopyOf(sources[k], r.updated, used, g, c);
      ApartPair(p.funcs, g, h);
      EndsOutside(sources[k], r.updated, used, g, c, h, namepos, body);
    }
    FunctionStands(r.rewritten, r.updated, r.copies, filename, linedirs, h.start, namepos, body, h.end);
  }

  /** After a whole run, a call that was renamed finds a definition in the text of a rewritten file, if its function is
      not skipped or the files have a function with exactly the unsafe name; in the first case the definition is the
      copy under the guard. */
  lemma DefinitionInText(sources: seq<TokenList>, filenames: seq<string>, p: Program, used: set<string>,
                         results: seq<FileResult>, linedirs: bool, name: string)
    requires ProgramOf(sources, filenames, p) && |results| == |sources|
      && FilesRight(p, used, results, filenames, linedirs)
    requires name in FuncNames(p) && name in used
    ensures !Skipped(FuncNames(p), name) ==> CopyInText(results, name) && InText(results, UnsafeName(name))
    ensures UnsafeName(name) in FuncNames(p) ==> InText(results, UnsafeName(name))
  {
    hide Skipped, FileRight, CopyIn, DefinedIn, InlineFunc, Complete, Header, Apart, Lexed;
    if !Skipped(FuncNames(p), name) {
      var g :| g in p.funcs && g.name == name;
      var r := results[g.source];
      CopyInFile(p, g.source, used, r, filenames[g.source], linedirs, g);
      assert r in results;
      CopyDefines(r.rewritten, name);
    }
    if UnsafeName(name) in FuncNames(p) {
      var h :| h in p.funcs && h.name == UnsafeName(name);
      var r := results[h.source];
      UnsafeTwice(name);
      KeptInFile(sources, p, h.source, used, r, filenames[h.source], linedirs, h);
      assert r in results;
    }
  }

  lemma CopyDefines(w: TokenList, name: string)
    requires CopyIn(w, name)
    ensures DefinedIn(w, UnsafeName(name))
  {
    hide Defines, GuardAround;
  }

  lemma CopiedNamed(p: Program, used: set<string>, results: seq<FileResult>, filenames: seq<string>, linedirs: bool,
                    r: FileResult, c: Copy)
    requires |results| == |p.sources| && FilesRight(p, used, results, filenames, linedirs) && r in results
      && c in r.copies
    ensures c.name in used && !Skipped(FuncNames(p), c.name)
  {
    hide Skipped, UpdatedRight, Composed, CopyOf, HasCopy;
    var k :| 0 <= k < |results| && results[k] == r;
    assert FileRight(p, k, used, r, filenames[k], linedirs);
    var g :| ToCopy(p, k, used, g) && CopyOf(p.sources[k], r.updated, used, g, c);
    CopyName(p.sources[k], r.updated, used, g, c);
  }

  lemma CopyName(t: TokenList, updated: TokenList, used: set<string>, g: Func, c: Copy)
    requires CopyOf(t, updated, used, g, c)
    ensures c.name == g.name
  {
    hide Shape, IsBodyStart, Widened, UnsafeCode;
  }

  lemma CopyMade(p: Program, used: set<string>, results: seq<FileResult>, filenames: seq<string>, linedirs: bool,
                 name: string)
    requires p.Ok() && |results| == |p.sources| && FilesRight(p, used, results, filenames, linedirs)
    requires name in FuncNames(p) && name in used && !Skipped(FuncNames(p), name)
    ensures exists r, c :: r in results && c in r.copies && c.name == name
  {
    hide Skipped, UpdatedRight, Composed, CopyOf, HasFunction;
    var g :| g in p.funcs && g.name == name;
    var k := g.source;
    assert FileRight(p, k, used, results[k], filenames[k], linedirs);
    assert ToCopy(p, k, used, g) && HasCopy(p, k, used, results[k], g);
    var c :| c in results[k].copies && CopyOf(p.sources[k], results[k].updated, used, g, c);
    CopyName(p.sources[k], results[k].updated, used, g, c);
    assert results[k] in results;
  }
}
