/** The first branches of the conditionals that mention WARD_ENABLED (src/analyzer.cc, FindUnsafeSections). They are
    the parts compiled without WARD_ENABLED just when every such conditional asks that it is not defined. */
module Sections {
  import opened Tokens

  const WARD := "WARD_ENABLED"

  predicate Mentions(s: string, word: string) {
    exists i :: 0 <= i <= |s| - |word| && s[i..][..|word|] == word
  }

  /** A conditional that mentions WARD_ENABLED. */
  predicate WardIf(k: Token) {
    k.sym == PPIf && Mentions(k.str, WARD)
  }

  lemma WardMentioned(k: Token)
    ensures WardIf(k) <==> k.sym == PPIf && exists a, b :: k.str == a + "WARD_ENABLED" + b
  {
    var s := k.str;
    if i :| 0 <= i <= |s| - |WARD| && s[i..][..|WARD|] == WARD {
      assert s == s[..i] + "WARD_ENABLED" + s[i + |WARD|..];
    }
    if a, b :| s == a + "WARD_ENABLED" + b {
      assert s[|a|..][..|WARD|] == WARD;
    }
  }

  // ---------- what the conditionals are meant to ask ----------

  predicate Space(c: char) {
    c == ' ' || c == '\t' || c == 12 as char
  }

  function Squeezed(s: string): string {
    if s == "" then "" else (if Space(s[0]) then "" else [s[0]]) + Squeezed(s[1..])
  }

  /** The word at i is what the directive asks not to be defined. */
  predicate NotDefinedAt(s: string, i: int)
    requires 0 <= i <= |s| - |WARD|
  {
    var before, after := Squeezed(s[..i]), Squeezed(s[i + |WARD|..]);
    && s[i..][..|WARD|] == WARD
    && ((before == "#ifndef" && after == "" && Space(s[i - 1])) || (before == "#if!defined(" && after == ")"))
  }

  /** #ifndef WARD_ENABLED or #if !defined(WARD_ENABLED), with any spacing. */
  predicate AsksUndefined(s: string) {
    exists i :: 0 <= i <= |s| - |WARD| && NotDefinedAt(s, i)
  }

  /** The sections found start at the conditionals that ask for WARD_ENABLED not to be defined, and at no others, just
      when no other conditional mentions it. */
  lemma IntendedSections(t: TokenList, start: seq<nat>, end: seq<nat>)
    requires Paired(t, start, end, |t|)
    ensures (forall s: nat :: s in start <==> s < |t| && t[s].sym == PPIf && AsksUndefined(t[s].str))
      <==> (forall s: nat :: s < |t| && WardIf(t[s]) ==> AsksUndefined(t[s].str))
  {
    hide AsksUndefined, BranchEnds;
    forall s: nat ensures s in start <==> s < |t| && WardIf(t[s]) {
      if s in start {
        var k :| 0 <= k < |start| && start[k] == s;
      }
    }
    forall s: nat | s < |t| && AsksUndefined(t[s].str) ensures Mentions(t[s].str, WARD) {
      AsksMentions(t[s].str);
    }
  }

  lemma AsksMentions(s: string)
    requires AsksUndefined(s)
    ensures Mentions(s, WARD)
  {
    var i :| 0 <= i <= |s| - |WARD| && NotDefinedAt(s, i);
    assert s[i..][..|WARD|] == WARD;
  }

  /** A conditional that asks the opposite opens a section as well. */
  lemma OppositeQuestion(t: TokenList)
    requires t == [Token(PPIf, "#ifdef WARD_ENABLED"), Token(PPEndif, "#endif"), Token(EOF, "")]
    ensures Paired(t, [0], [1], |t|) && !Mismatch(t) && !AsksUndefined(t[0].str)
  {
    IfdefMentions(t[0].str);
    hide Mentions, AsksUndefined;
    assert Nesting(t, 0, 0) == 0 && Nesting(t, 0, 1) == 1;
    assert BranchEnds(t, 0, 1);
  }

  lemma IfdefMentions(s: string)
    requires s == "#ifdef WARD_ENABLED"
    ensures Mentions(s, WARD) && !AsksUndefined(s)
  {
    assert s[7..][..|WARD|] == WARD;
    forall i | 0 <= i <= |s| - |WARD| ensures !NotDefinedAt(s, i) {
      if s[i..][..|WARD|] == WARD {
        assert s[i] == s[i..][..|WARD|][0] == 'W';
        Squeeze("#ifdef", ' ');
        assert s[..7] == "#ifdef" + [' '];
      }
    }
  }

  lemma Squeeze(s: string, c: char)
    requires Space(c) && forall i :: 0 <= i < |s| ==> !Space(s[i])
    ensures Squeezed(s + [c]) == s
  {
    if s == "" {
      assert Squeezed([c][1..]) == "";
    } else {
      assert (s + [c])[1..] == s[1..] + [c];
      Squeeze(s[1..], c);
    }
  }

  predicate Branch(s: Symbol) {
    s == PPElse || s == PPElif || s == PPEndif
  }

  /** Conditionals opened less conditionals closed from `lo` up to `hi`. */
  ghost function Nesting(t: TokenList, lo: nat, hi: nat): int
    requires lo <= hi <= |t|
    decreases hi
  {
    if lo == hi then 0
    else Nesting(t, lo, hi - 1) + (if t[hi - 1].sym == PPIf then 1 else if t[hi - 1].sym == PPEndif then -1 else 0)
  }

  function Level(k: Token, level: int): int {
    if k.sym == PPIf then level + 1 else if k.sym == PPEndif then level - 1 else level
  }

  /** Position i is still inside the branch that the conditional at s opens. */
  ghost predicate Within(t: TokenList, s: nat, i: nat) {
    s < i < |t| && Nesting(t, s, i) >= 1 && !(Nesting(t, s, i) == 1 && Branch(t[i].sym))
  }

  /** The branch that the conditional at s opens ends at e. */
  ghost predicate BranchEnds(t: TokenList, s: nat, e: nat) {
    && s < e < |t| && Branch(t[e].sym) && Nesting(t, s, e) == 1
    && forall i: nat {:trigger Within(t, s, i)} :: s < i < e ==> Within(t, s, i)
  }

  /** Some conditional that mentions WARD_ENABLED is not closed, or holds another one in its open branch. */
  ghost predicate Mismatch(t: TokenList) {
    exists s: nat :: s < |t| && WardIf(t[s]) && forall e: nat :: BranchEnds(t, s, e) ==> WardBetween(t, s, e)
  }

  ghost predicate WardBetween(t: TokenList, s: nat, e: nat) {
    exists i: nat :: s < i < e && i < |t| && WardIf(t[i])
  }

  /** Start and end positions belong to each other, in order, and no conditional that mentions WARD_ENABLED
      and comes before `n` is left out. */
  ghost predicate Paired(t: TokenList, start: seq<nat>, end: seq<nat>, n: nat) {
    && |start| == |end|
    && (forall k ::
      0 <= k < |start| ==> start[k] < end[k] < n <= |t| && WardIf(t[start[k]]) && BranchEnds(t, start[k], end[k]))
    && (forall k, l :: 0 <= k < l < |start| ==> end[k] < start[l])
    && (forall i: nat :: i < n && i < |t| && WardIf(t[i]) ==> i in start)
  }

  /** Up to position i the branch of the conditional at `open` does not end, and no other section begins in it. */
  ghost predicate OpenTo(t: TokenList, open: nat, i: nat) {
    forall j: nat {:trigger Within(t, open, j)} :: open < j < i && j < |t| ==> Within(t, open, j) && !WardIf(t[j])
  }

  /** Inside the open branch of the conditional at `open`; the earlier sections are paired. */
  ghost predicate Inside(t: TokenList, i: nat, level: int, start: seq<nat>, end: seq<nat>) {
    && |start| == |end| + 1 && i <= |t|
    && var open := start[|end|];
    && open < i && WardIf(t[open]) && Paired(t, start[..|end|], end, open)
    && OpenTo(t, open, i)
    && level == Nesting(t, open, i) >= 1
  }

  /** The sections of one file; `ok` is false when the code stops because starts and ends do not match up. */
  method FindUnsafeSections(t: TokenList) returns (ok: bool, start: seq<nat>, end: seq<nat>)
    ensures ok ==> Paired(t, start, end, |t|)
    ensures ok <==> !Mismatch(t)
  {
    hide WardIf, Nesting, Mismatch, Paired, Inside;
    start, end := [], [];
    var level, prot := 0, true;
    ghost var bad := false;
    NoSections(t);
    var i: nat := 0;
    while i < |t|
      invariant i <= |t| && level >= 0
      invariant bad ==> Mismatch(t) && |start| > |end| + (if prot then 0 else 1)
      invariant !bad ==> if prot then Paired(t, start, end, i) else Inside(t, i, level, start, end)
    {
      if !bad {
        Step(t, i, prot, level, start, end);
      }
      match t[i].sym {
        case PPIf =>
          if WardIf(t[i]) {
            bad := bad || !prot;
            prot := false;
            level := 1;
            start := start + [i];
          } else if level > 0 {
            level := level + 1;
          }
        case PPElse =>
          if !prot && level == 1 {
            prot := true;
            end := end + [i];
          }
        case PPElif =>
          if !prot && level == 1 {
            prot := true;
            end := end + [i];
          }
        case PPEndif =>
          if !prot && level == 1 {
            prot := true;
            end := end + [i];
          }
          if level > 0 {
            level := level - 1;
          }
        case _ =>
      }
      i := i + 1;
    }
    ok := |start| == |end|;
    if !bad {
      if prot {
        PairedMatch(t, start, end);
      } else {
        NeverEnds(t, level, start, end);
      }
    }
  }

  lemma NoSections(t: TokenList)
    ensures Paired(t, [], [], 0)
  {
  }

  /** What one token does, as long as no section was opened inside another one. */
  lemma Step(t: TokenList, i: nat, prot: bool, level: int, start: seq<nat>, end: seq<nat>)
    requires i < |t| && if prot then Paired(t, start, end, i) else Inside(t, i, level, start, end)
    ensures prot && WardIf(t[i]) ==> Inside(t, i + 1, 1, start + [i], end)
    ensures prot && !WardIf(t[i]) ==> Paired(t, start, end, i + 1)
    ensures !prot && WardIf(t[i]) ==> Mismatch(t) && |start| == |end| + 1
    ensures !prot && !WardIf(t[i]) && level == 1 && Branch(t[i].sym) ==> Paired(t, start, end + [i], i + 1)
    ensures !prot && !WardIf(t[i]) && !(level == 1 && Branch(t[i].sym)) ==>
      Inside(t, i + 1, Level(t[i], level), start, end)
    ensures (WardIf(t[i]) ==> t[i].sym == PPIf) && (!prot ==> level >= 1)
  {
    if prot {
      if WardIf(t[i]) {
        Opened(t, i, start, end);
      } else {
        Unchanged(t, i, start, end);
      }
    } else if WardIf(t[i]) {
      TwiceOpened(t, i, level, start, end);
    } else if level == 1 && Branch(t[i].sym) {
      Closed(t, i, start, end);
    } else {
      StillOpen(t, i, level, start, end);
    }
  }

  lemma Opened(t: TokenList, i: nat, start: seq<nat>, end: seq<nat>)
    requires i < |t| && Paired(t, start, end, i) && WardIf(t[i])
    ensures Inside(t, i + 1, 1, start + [i], end) && t[i].sym == PPIf
  {
    assert (start + [i])[..|end|] == start;
    assert Nesting(t, i, i + 1) == Nesting(t, i, i) + 1;
    hide Nesting, Paired;
  }

  lemma Unchanged(t: TokenList, i: nat, start: seq<nat>, end: seq<nat>)
    requires i < |t| && Paired(t, start, end, i) && !WardIf(t[i])
    ensures Paired(t, start, end, i + 1)
  {
    hide Mentions, BranchEnds;
  }

  lemma NotWithin(t: TokenList, s: nat, e: nat)
    requires BranchEnds(t, s, e)
    ensures !Within(t, s, e)
  {
  }

  lemma NoWardInside(t: TokenList, open: nat, i: nat, x: nat)
    requires open < x < i <= |t|
    requires OpenTo(t, open, i)
    ensures !WardIf(t[x])
  {
    assert Within(t, open, x);
  }

  lemma TwiceOpened(t: TokenList, i: nat, level: int, start: seq<nat>, end: seq<nat>)
    requires i < |t| && Inside(t, i, level, start, end) && WardIf(t[i])
    ensures Mismatch(t) && t[i].sym == PPIf
  {
    var open := start[|end|];
    hide Nesting, Paired, Mentions;
    forall e: nat | BranchEnds(t, open, e) ensures WardBetween(t, open, e) {
      if e < i {
        NotWithin(t, open, e);
      }
    }
  }

  lemma Closed(t: TokenList, i: nat, start: seq<nat>, end: seq<nat>)
    requires i < |t| && Inside(t, i, 1, start, end) && !WardIf(t[i]) && Branch(t[i].sym)
    ensures Paired(t, start, end + [i], i + 1)
  {
    var open, before := start[|end|], start[..|end|];
    assert start == before + [open];
    hide Nesting, Mentions;
    assert BranchEnds(t, open, i);
    hide BranchEnds;
    forall x: nat | x < i + 1 && x < |t| && WardIf(t[x]) ensures x in start {
      assert x < open ==> x in before;
      if open < x && x < i {
        NoWardInside(t, open, i, x);
      }
    }
  }

  lemma StillOpen(t: TokenList, i: nat, level: int, start: seq<nat>, end: seq<nat>)
    requires i < |t| && Inside(t, i, level, start, end) && !WardIf(t[i]) && !(level == 1 && Branch(t[i].sym))
    ensures Inside(t, i + 1, Level(t[i], level), start, end)
  {
    hide Paired, Mentions;
    var open := start[|end|];
    NestingStep(t, open, i);
    hide Nesting, WardIf, Level, Within, OpenTo;
    StaysWithin(t, open, i);
    assert Level(t[i], level) == Nesting(t, open, i + 1) >= 1;
  }

  lemma NestingStep(t: TokenList, open: nat, i: nat)
    requires open < i < |t| && Nesting(t, open, i) >= 1 && !(Nesting(t, open, i) == 1 && Branch(t[i].sym))
    ensures Nesting(t, open, i + 1) == Level(t[i], Nesting(t, open, i))
    ensures Nesting(t, open, i + 1) >= 1 && Within(t, open, i)
  {
  }

  lemma StaysWithin(t: TokenList, open: nat, i: nat)
    requires open < i < |t| && Within(t, open, i) && !WardIf(t[i])
    requires OpenTo(t, open, i)
    ensures OpenTo(t, open, i + 1)
  {
    hide WardIf, Nesting;
    forall j: nat | open < j < i + 1 ensures Within(t, open, j) && !WardIf(t[j]) {
      assert j < i ==> Within(t, open, j);
    }
  }

  lemma Apart(t: TokenList, start: seq<nat>, end: seq<nat>, k: nat, l: nat)
    requires Paired(t, start, end, |t|) && k < |start| && l < |start|
    ensures start[l] <= start[k] || end[k] < start[l]
  {
    hide BranchEnds, WardIf;
  }

  /** With every section closed and none opened inside another one, the file has no mismatch. */
  lemma PairedMatch(t: TokenList, start: seq<nat>, end: seq<nat>)
    requires Paired(t, start, end, |t|)
    ensures !Mismatch(t) && |start| == |end|
  {
    hide BranchEnds, WardIf;
    forall s: nat | s < |t| && WardIf(t[s]) ensures exists e: nat :: BranchEnds(t, s, e) && !WardBetween(t, s, e) {
      var k :| 0 <= k < |start| && start[k] == s;
      assert BranchEnds(t, s, end[k]);
      if i: nat :| s < i < end[k] && i < |t| && WardIf(t[i]) {
        var l :| 0 <= l < |start| && start[l] == i;
        Apart(t, start, end, k, l);
      }
    }
  }

  lemma NeverEnds(t: TokenList, level: int, start: seq<nat>, end: seq<nat>)
    requires Inside(t, |t|, level, start, end)
    ensures Mismatch(t) && |start| != |end|
  {
    var open := start[|end|];
    hide Nesting, Paired, WardIf;
    forall e: nat ensures !BranchEnds(t, open, e) {
      if e < |t| && open < e {
        assert Within(t, open, e);
      }
    }
  }
}
