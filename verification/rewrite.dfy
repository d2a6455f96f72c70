/** The token-level rewriting: inline functions, their unsafe copies and the rewritten file
    (src/analyzer.cc, src/rewrite.cc). */
module Rewrite {
  import opened Tokens
  import opened Lines

  // ---------- names ----------

  predicate Lower(c: char) {
    'a' <= c <= 'z'
  }

  /** The prefix that goes with the name's case. */
  function UnsafePrefix(name: string): string {
    if exists i :: 0 <= i < |name| && Lower(name[i]) then "Unsafe" else "UNSAFE_"
  }

  function UnsafeName(name: string): string {
    if UnsafePrefix(name) <= name then name else UnsafePrefix(name) + name
  }

  function SafeName(name: string): string {
    if "Unsafe" <= name then name[6..]
    else if "UNSAFE_" <= name then name[7..]
    else name
  }

  /** Names with a lower-case letter get the prefix Unsafe, all others UNSAFE_, unless they begin with it. */
  lemma PrefixByCase(name: string)
    ensures (exists c :: c in name && 'a' <= c <= 'z') ==>
      UnsafeName(name) == if "Unsafe" <= name then name else "Unsafe" + name
    ensures (forall c :: c in name ==> !('a' <= c <= 'z')) ==>
      UnsafeName(name) == if "UNSAFE_" <= name then name else "UNSAFE_" + name
  {
    if c :| c in name && 'a' <= c <= 'z' {
      var i :| 0 <= i < |name| && name[i] == c;
      assert Lower(name[i]);
    }
    if i :| 0 <= i < |name| && Lower(name[i]) {
      assert name[i] in name;
    }
  }

  lemma PrefixKept(name: string)
    ensures UnsafePrefix(UnsafePrefix(name) + name) == UnsafePrefix(name)
  {
    var p := UnsafePrefix(name);
    if i :| 0 <= i < |name| && Lower(name[i]) {
      assert Lower((p + name)[|p| + i]);
    }
  }

  /** Marking a name unsafe twice is marking it once. */
  lemma UnsafeTwice(name: string)
    ensures UnsafeName(UnsafeName(name)) == UnsafeName(name)
  {
    PrefixKept(name);
  }

  /** SafeName takes back what UnsafeName added. */
  lemma SafeOfUnsafe(name: string)
    requires !(UnsafePrefix(name) <= name)
    ensures SafeName(UnsafeName(name)) == name
  {
    var p := UnsafePrefix(name);
    assert (p + name)[|p|..] == name;
    if p == "UNSAFE_" {
      assert (p + name)[1] == 'N';
    }
  }

  // ---------- braces ----------

  /** Open braces less closed ones from `lo` up to `hi`. */
  ghost function Depth(t: TokenList, lo: nat, hi: nat): int
    requires lo <= hi <= |t|
    decreases hi
  {
    if lo == hi then 0
    else Depth(t, lo, hi - 1) + (if t[hi - 1].sym == LBrace then 1 else if t[hi - 1].sym == RBrace then -1 else 0)
  }

  ghost predicate OpenAt(t: TokenList, b: nat, i: nat) {
    b <= i <= |t| && Depth(t, b, i) > 0
  }

  /** The brace at `b` is closed by the one at `e`. */
  ghost predicate Closes(t: TokenList, b: nat, e: nat) {
    && b < e < |t| && t[b].sym == LBrace && t[e].sym == RBrace
    && (forall i: nat :: b < i <= e ==> OpenAt(t, b, i)) && Depth(t, b, e + 1) == 0
  }

  /** SkipToMatch: the closing brace, or the end marker when there is none. */
  method SkipToMatch(t: TokenList, pos: nat) returns (p: nat, closed: bool)
    requires Lexed(t) && pos < |t| && t[pos].sym == LBrace
    ensures p < |t|
    ensures if closed then Closes(t, pos, p) else p == |t| - 1 && forall e: nat :: !Closes(t, pos, e)
  {
    p := pos;
    var level := 0;
    while t[p].sym != EOF
      invariant pos <= p < |t| && level == Depth(t, pos, p) && (p > pos ==> level > 0)
      invariant forall i: nat :: pos < i <= p ==> OpenAt(t, pos, i)
      decreases |t| - p
    {
      if t[p].sym == LBrace {
        level := level + 1;
      } else if t[p].sym == RBrace {
        level := level - 1;
        if level == 0 {
          return p, true;
        }
      }
      p := p + 1;
    }
    closed := false;
    forall e: nat ensures !Closes(t, pos, e) {
      assert pos < e < |t| - 1 ==> OpenAt(t, pos, e + 1);
    }
  }

  // ---------- inline functions ----------

  /** The keywords of an inline function: EXPORT_INLINE, or `static` and `inline` with only blanks between. */
  ghost predicate Starter(t: TokenList, start: nat) {
    && start < |t|
    && (t[start].sym == ExportInline
        || (t[start].sym == Static
            && exists h :: start < h < |t| && t[h].sym == Inline && forall i :: start < i < h ==> Blank(t[i].sym)))
  }

  /** The tokens of an inline function: its keywords, its name before the first parenthesis, its body. */
  ghost predicate Shape(t: TokenList, start: nat, namepos: nat, body: nat, end: nat) {
    && start < namepos && namepos + 1 < body && Closes(t, body, end) && end < |t| - 1
    && Starter(t, start)
    && t[namepos].sym == Ident && t[namepos + 1].sym == LPar
    && (forall i :: start <= i <= namepos ==> t[i].sym != LPar)
    && (forall i :: namepos < i < body ==> t[i].sym != LBrace)
  }

  lemma NoParens(t: TokenList, start: nat, head: nat)
    requires start <= head < |t| && (start < head ==> t[start].sym == Static)
    requires forall i :: start < i < head ==> Blank(t[i].sym)
    ensures forall i :: start <= i < head ==> t[i].sym != LPar
  {
  }

  lemma IsShape(t: TokenList, start: nat, head: nat, namepos: nat, body: nat, end: nat)
    requires Lexed(t) && start <= head <= namepos && namepos + 1 < body < |t| && Closes(t, body, end)
    requires (forall i :: start <= i < head ==> t[i].sym != LPar)
      && (forall i :: head <= i <= namepos ==> t[i].sym != LPar)
    requires Starter(t, start) && t[namepos].sym == Ident && t[namepos + 1].sym == LPar
    requires forall i :: namepos < i < body ==> t[i].sym != LBrace
    ensures Shape(t, start, namepos, body, end) && start < end < |t| - 1
  {
    assert t[|t| - 1].sym == EOF;
  }

  /** `start0` and `end0` are the stretch of the function as it was found. */
  class FuncSpec {
    const name: string
    const namepos: nat
    ghost const body: nat
    ghost const start0: nat
    ghost const end0: nat
    var start: nat
    var end: nat
    var callpositions: seq<nat>
    var unsafeCode: TokenList
    ghost var first: nat

    constructor (start: nat, end: nat, namepos: nat, name: string, ghost body: nat)
      ensures this.start == start0 == start && this.end == end0 == end
      ensures this.namepos == namepos && this.name == name && this.body == body
    {
      this.start, this.end, this.namepos, this.name, this.body := start, end, namepos, name, body;
      start0, end0, callpositions, unsafeCode, first := start, end, [], [], start;
    }

    ghost predicate Found(t: TokenList)
      reads this
    {
      start == start0 && end == end0 && Shape(t, start0, namepos, body, end0) && name == t[namepos].str
    }

    /** The calls of the given names in the body are recorded. */
    ghost predicate Recorded(t: TokenList, names: set<string>)
      reads this
    {
      && IsBodyStart(t, start0, first)
      && forall p: nat :: p in callpositions <==> CallAt(names, t, first, end0, p)
    }

    ghost predicate Ready(t: TokenList, filter: set<string>)
      reads this
    {
      && start == start0 && end == end0 && Shape(t, start0, namepos, body, end0) && IsBodyStart(t, start0, first)
      && CallsKnown(t, callpositions, filter, first, end0)
    }

    /** Its unsafe copy is made: that of the stretch found, with the blanks around it, and of the calls in the body. */
    ghost predicate Done(t: TokenList, filter: set<string>)
      reads this
    {
      && Shape(t, start0, namepos, body, end0) && IsBodyStart(t, start0, first)
      && Widened(t, start0, end0, start, end)
      && UnsafeCode(unsafeCode, t, filter, name, namepos, first, end0, start, end)
    }
  }

  /** The functions do not overlap and come in the order of the file. */
  ghost predicate InOrder(funcs: seq<FuncSpec>)
    reads funcs
  {
    forall i, j :: 0 <= i < j < |funcs| ==> funcs[i].end < funcs[j].start
  }

  /** What follows the keyword of an inline function: nothing more of interest in the file, a parenthesis after
      something that is not a name, a body without an end, or a name and a body. */
  datatype Reading = NoMore | NoName(at: nat) | Unclosed(open: nat) | Body(namepos: nat, body: nat, end: nat)

  ghost predicate InlineAt(t: TokenList, s: nat) {
    exists namepos, body, end :: Shape(t, s, namepos, body, end)
  }

  ghost predicate Covered(funcs: seq<FuncSpec>, s: nat)
    reads funcs
  {
    exists f :: f in funcs && f.start <= s <= f.end
  }

  /** The list holds the inline functions of the file up to `pos`: those that are not in it begin inside one of it. */
  ghost predicate FoundTo(t: TokenList, funcs: seq<FuncSpec>, pos: nat)
    reads funcs
  {
    && (forall f :: f in funcs ==> f.Found(t) && f.end < pos) && InOrder(funcs)
    && forall s: nat :: s < pos && InlineAt(t, s) ==> Covered(funcs, s)
  }

  lemma FoundMore(t: TokenList, funcs: seq<FuncSpec>, fn: FuncSpec)
    requires FoundTo(t, funcs, fn.start) && fn.Found(t) && fn.start <= fn.end
    ensures FoundTo(t, funcs + [fn], fn.end + 1)
  {
    hide InlineAt, FuncSpec.Found;
    forall s: nat | s < fn.end + 1 && InlineAt(t, s) ensures Covered(funcs + [fn], s) {
      if s < fn.start {
        var f :| f in funcs && f.start <= s <= f.end;
        assert f in funcs + [fn];
      } else {
        assert fn in funcs + [fn];
      }
    }
  }

  lemma FoundNone(t: TokenList, funcs: seq<FuncSpec>, start: nat, pos: nat)
    requires FoundTo(t, funcs, start) && start <= pos && forall s: nat :: start <= s < pos ==> !InlineAt(t, s)
    ensures FoundTo(t, funcs, pos)
  {
    hide InlineAt, Covered, FuncSpec.Found;
  }

  lemma FoundAsFar(t: TokenList, funcs: seq<FuncSpec>, pos: nat)
    requires FoundTo(t, funcs, pos)
    ensures (forall f :: f in funcs ==> f.Found(t)) && InOrder(funcs)
  {
  }

  lemma FoundAll(t: TokenList, funcs: seq<FuncSpec>, start: nat)
    requires FoundTo(t, funcs, start) && forall s: nat :: start <= s ==> !InlineAt(t, s)
    ensures forall s: nat :: InlineAt(t, s) ==> Covered(funcs, s)
  {
    hide InlineAt, Covered;
  }

  /** No parenthesis up to the end of the file. */
  lemma NoneAfter(t: TokenList, start: nat, pos: nat)
    requires Lexed(t) && start <= pos < |t| && t[pos].sym == EOF
    requires forall i :: start <= i < pos ==> t[i].sym != LPar
    ensures forall s: nat :: start <= s ==> !InlineAt(t, s)
  {
    hide Starter;
    forall s: nat, namepos: nat, body: nat, end: nat | start <= s ensures !Shape(t, s, namepos, body, end) {
    }
  }

  /** The first parenthesis does not follow a name. */
  lemma NoneBeforeParen(t: TokenList, start: nat, pos: nat)
    requires start < pos < |t| && t[pos].sym == LPar && t[pos - 1].sym != Ident
    requires forall i :: start <= i < pos ==> t[i].sym != LPar
    ensures forall s: nat :: start <= s < pos ==> !InlineAt(t, s)
  {
    hide Starter;
    forall s: nat, namepos: nat, body: nat, end: nat | start <= s < pos ensures !Shape(t, s, namepos, body, end) {
    }
  }

  /** No opening brace after the first name. */
  lemma NoneWithoutBody(t: TokenList, start: nat, namepos: nat, pos: nat)
    requires Lexed(t) && start <= namepos && namepos + 1 < pos < |t| && t[pos].sym == EOF && t[namepos + 1].sym == LPar
    requires forall i :: start <= i <= namepos ==> t[i].sym != LPar
    requires forall i :: namepos < i < pos ==> t[i].sym != LBrace
    ensures forall s: nat :: start <= s ==> !InlineAt(t, s)
  {
    hide Starter;
    forall s: nat, n: nat, body: nat, end: nat | start <= s ensures !Shape(t, s, n, body, end) {
    }
  }

  method ReadInline(t: TokenList, start: nat, head: nat) returns (r: Reading)
    requires Lexed(t) && start <= head < |t| && (start < head ==> t[start].sym == Static)
    requires (forall i :: start < i < head ==> Blank(t[i].sym)) && t[head].sym != LPar && Starter(t, start)
    ensures r == NoMore ==> forall s: nat :: start <= s ==> !InlineAt(t, s)
    ensures r.NoName? ==> start < r.at < |t| && forall s: nat :: start <= s < r.at ==> !InlineAt(t, s)
    ensures r.Unclosed? ==> r.open < |t| && t[r.open].sym == LBrace && forall e: nat :: !Closes(t, r.open, e)
    ensures r.Body? ==> start < r.end < |t| - 1 && r.namepos < |t| && Shape(t, start, r.namepos, r.body, r.end)
  {
    hide Closes, Shape, Starter, InlineAt;
    NoParens(t, start, head);
    var pos := SkipUntil(t, head, LPar);
    if t[pos].sym == EOF {
      NoneAfter(t, start, pos);
      return NoMore;
    }
    if t[pos - 1].sym != Ident {
      NoneBeforeParen(t, start, pos);
      return NoName(pos);
    }
    var namepos := pos - 1;
    pos := SkipUntil(t, pos, LBrace);
    if t[pos].sym == EOF {
      NoneWithoutBody(t, start, namepos, pos);
      return NoMore;
    }
    var body, closed := pos, false;
    pos, closed := SkipToMatch(t, pos);
    if !closed {
      return Unclosed(body);
    }
    IsShape(t, start, head, namepos, body, pos);
    r := Body(namepos, body, pos);
  }

  /** FindInlineFunctions on one file; `closed` is false when a body runs into the end of the file. */
  method FindInlineFunctions(t: TokenList) returns (result: seq<FuncSpec>, closed: bool)
    requires Lexed(t)
    ensures fresh(result) && (forall f :: f in result ==> f.Found(t)) && InOrder(result)
    ensures closed ==> forall s: nat :: InlineAt(t, s) ==> Covered(result, s)
    ensures !closed ==> exists b :: 0 <= b < |t| && t[b].sym == LBrace && forall e: nat :: !Closes(t, b, e)
  {
    hide Closes, Shape, Starter, InlineAt, Covered, FoundTo;
    result, closed := [], true;
    var pos: nat := 0;
    FoundNothing(t);
    while t[pos].sym != EOF
      invariant pos < |t|
      invariant fresh(result) && FoundTo(t, result, pos)
      decreases |t| - pos
    {
      var start := pos;
      if t[pos].sym == Static {
        pos := SkipBlank(t, pos + 1);
        if t[pos].sym != Inline {
          NotInline(t, start, pos);
          FoundNone(t, result, start, pos);
          continue;
        }
      } else if t[pos].sym != ExportInline {
        pos := pos + 1;
        NotInline(t, start, pos);
        FoundNone(t, result, start, pos);
        continue;
      }
      IsStarter(t, start, pos);
      var read := ReadInline(t, start, pos);
      if read == NoMore {
        FoundAll(t, result, start);
        FoundAsFar(t, result, start);
        return;
      }
      if read.NoName? {
        pos := read.at;
        FoundNone(t, result, start, pos);
        continue;
      }
      if read.Unclosed? {
        FoundAsFar(t, result, start);
        return result, false;
      }
      var fn := new FuncSpec(start, read.end, read.namepos, t[read.namepos].str, read.body);
      FoundMore(t, result, fn);
      result := result + [fn];
      pos := read.end + 1;
    }
    NothingAtEnd(t);
    FoundAll(t, result, pos);
    FoundAsFar(t, result, pos);
  }

  lemma FoundNothing(t: TokenList)
    ensures FoundTo(t, [], 0)
  {
  }

  lemma IsStarter(t: TokenList, start: nat, head: nat)
    requires start <= head < |t|
    requires if start == head then t[start].sym == ExportInline else t[start].sym == Static && t[head].sym == Inline
    requires forall i :: start < i < head ==> Blank(t[i].sym)
    ensures Starter(t, start)
  {
  }

  /** A keyword that `inline` does not follow, and the blanks behind it, or another token. */
  lemma NotInline(t: TokenList, start: nat, pos: nat)
    requires start < pos < |t| && forall i :: start < i < pos ==> Blank(t[i].sym)
    requires t[start].sym != ExportInline && (t[start].sym == Static ==> t[pos].sym != Inline && !Blank(t[pos].sym))
    ensures forall s: nat :: start <= s < pos ==> !InlineAt(t, s)
  {
    hide Closes;
  }

  lemma NothingAtEnd(t: TokenList)
    requires Lexed(t)
    ensures forall s: nat :: s >= |t| - 1 ==> !InlineAt(t, s)
  {
    hide Starter;
    forall s: nat, namepos: nat, body: nat, end: nat | s >= |t| - 1 ensures !Shape(t, s, namepos, body, end) {
    }
  }

  // ---------- renaming in unsafe sections ----------

  /** UpdateUnsafeSection: calls of selected functions in the unsafe sections of a file get their unsafe names.
      Positions may repeat. */
  method UpdateUnsafeSection(t: TokenList, calls: seq<nat>, filter: set<string>) returns (t': TokenList, changed: bool)
    requires forall p :: p in calls ==> p < |t|
    ensures |t'| == |t| && forall p: nat :: p < |t| ==> t'[p] == if p in calls then Marked(t[p], filter) else t[p]
    ensures changed <==> exists p :: p in calls && p < |t| && t[p].str in filter
  {
    t', changed := t, false;
    var i := 0;
    while i < |calls|
      invariant i <= |calls| && MarkedAt(t, t', calls[..i], filter)
      invariant changed <==> exists p :: p in calls[..i] && p < |t| && t[p].str in filter
    {
      var pos := calls[i];
      assert calls[..i + 1] == calls[..i] + [pos] && pos in calls;
      MarkOne(t, t', calls[..i], filter, pos);
      if t'[pos].str in filter {
        t' := t'[pos := Token(t'[pos].sym, UnsafeName(t'[pos].str))];
        changed := true;
      }
      i := i + 1;
    }
    assert calls[..i] == calls;
  }

  /** The tokens at these positions are marked, the others are as they were. */
  ghost predicate MarkedAt(t: TokenList, t': TokenList, calls: seq<nat>, filter: set<string>) {
    |t'| == |t| && forall p: nat :: p < |t| ==> t'[p] == if p in calls then Marked(t[p], filter) else t[p]
  }

  lemma MarkOne(t: TokenList, t': TokenList, calls: seq<nat>, filter: set<string>, pos: nat)
    requires MarkedAt(t, t', calls, filter) && pos < |t|
    ensures |t'| == |t| && MarkedAt(t, t'[pos := Marked(t'[pos], filter)], calls + [pos], filter)
    ensures t'[pos].str in filter ==> t[pos].str in filter
    ensures pos !in calls ==> t'[pos] == t[pos]
  {
    UnsafeTwice(t[pos].str);
  }

  /** The token with the unsafe name if its name is selected. */
  function Marked(k: Token, filter: set<string>): Token {
    if k.str in filter then Token(k.sym, UnsafeName(k.str)) else k
  }

  // ---------- unsafe copies ----------

  /** The stretch of a function with the blanks around it: white space before, white space and one line end after. */
  ghost predicate Widened(t: TokenList, start: nat, end: nat, start': nat, end': nat) {
    && start' <= start <= end <= end' < |t| - 1
    && (forall i :: start' <= i < start ==> t[i].sym == WS) && (start' > 0 ==> t[start' - 1].sym != WS)
    && (forall i :: end < i < end' ==> t[i].sym == WS) && (end < end' ==> t[end'].sym == WS || t[end'].sym == EOL)
    && ((end < end' && t[end'].sym == EOL) || (t[end' + 1].sym != WS && t[end' + 1].sym != EOL))
  }

  method Widen(t: TokenList, start0: nat, end0: nat) returns (start: nat, end: nat)
    requires Lexed(t) && start0 <= end0 < |t| - 1
    ensures Widened(t, start0, end0, start, end)
  {
    start := start0;
    while start > 0 && t[start - 1].sym == WS
      invariant start <= start0 && forall i :: start <= i < start0 ==> t[i].sym == WS
    {
      start := start - 1;
    }
    end := end0;
    while t[end + 1].sym == WS
      invariant end0 <= end < |t| - 1 && forall i :: end0 < i <= end ==> t[i].sym == WS
      decreases |t| - end
    {
      end := end + 1;
    }
    if t[end + 1].sym == EOL {
      end := end + 1;
    }
  }

  /** The last identifier before the first parenthesis. */
  method FindName(t: TokenList, start: nat, end: nat, ghost namepos: nat) returns (funcpos: int)
    requires start <= namepos < end < |t| && t[namepos].sym == Ident && t[namepos + 1].sym == LPar
    requires forall i :: start <= i <= namepos ==> t[i].sym != LPar
    ensures funcpos == namepos
  {
    funcpos := -1;
    var pos := start;
    while pos <= end
      invariant start <= pos <= namepos + 1 && (pos == namepos + 1 ==> funcpos == namepos)
      decreases end + 1 - pos
    {
      if t[pos].sym == Ident {
        funcpos := pos;
      } else if t[pos].sym == LPar {
        break;
      }
      pos := pos + 1;
    }
  }

  /** What becomes of token p in the unsafe copy of a function: its own name and the calls of selected functions in
      its body are renamed, everything else stays. */
  ghost function Copied(t: TokenList, filter: set<string>, namepos: nat, first: nat, end: nat, p: nat): Token
    requires p < |t|
  {
    if p == namepos || CallAt(filter, t, first, end, p) then Marked(t[p], filter) else t[p]
  }

  /** The copy of the stretch [start', end'] of a function whose calls lie in [first, end]. */
  ghost predicate IsCopy(copy: TokenList, t: TokenList, filter: set<string>, namepos: nat, first: nat, end: nat,
                         start': nat, end': nat)
  {
    && start' <= end' < |t| && |copy| == end' - start' + 1
    && forall p: nat :: start' <= p <= end' ==> copy[p - start'] == Copied(t, filter, namepos, first, end, p)
  }

  const NL := Token(EOL, "\n")

  /** The code compiles the copy where USE_HPC_GUARDS is defined, and otherwise has a macro that leads from the unsafe
      name back to the function itself. */
  ghost predicate Guarded(code: TokenList, copy: TokenList, name: string) {
    var n := |copy| + 1;
    && 1 < n <= |code| - 3 && code[0] == Token(PPOther, "#ifdef USE_HPC_GUARDS\n") && code[1..n] == copy
    && code[n..|code| - 3] == (if copy[|copy| - 1].sym == EOL then [] else [Token(EOL, "\n")])
    && code[|code| - 3] == Token(PPOther, "#else\n") && code[|code| - 1] == Token(PPOther, "#endif\n")
    && code[|code| - 2] == Token(PPOther, "#define " + UnsafeName(name) + " " + name + "\n")
  }

  /** The recorded positions name selected functions exactly at the calls of selected functions. */
  ghost predicate CallsKnown(t: TokenList, calls: seq<nat>, filter: set<string>, first: nat, end: nat) {
    && (forall p :: p in calls ==> p < |t| && first <= p <= end)
    && forall p: nat :: p < |t| ==> (p in calls && t[p].str in filter <==> CallAt(filter, t, first, end, p))
  }

  method Rename(t: TokenList, filter: set<string>, calls: seq<nat>, start: nat, end: nat) returns (copy: TokenList)
    requires start <= end < |t| && forall p :: p in calls ==> start <= p <= end
    ensures |copy| == end - start + 1
    ensures forall p: nat :: start <= p <= end ==> copy[p - start] == if p in calls then Marked(t[p], filter) else t[p]
  {
    copy := t[start..end + 1];
    var i := 0;
    while i < |calls|
      invariant i <= |calls| && Renamed(t, copy, calls[..i], filter, start, end)
    {
      var pos := calls[i];
      assert calls[..i + 1] == calls[..i] + [pos] && pos in calls;
      RenameOne(t, copy, calls[..i], filter, start, end, pos);
      if t[pos].str in filter {
        copy := copy[pos - start := Token(copy[pos - start].sym, UnsafeName(t[pos].str))];
      }
      i := i + 1;
    }
    assert calls[..i] == calls;
  }

  /** The tokens of the stretch, marked at these positions. */
  ghost predicate Renamed(t: TokenList, copy: TokenList, calls: seq<nat>, filter: set<string>, start: nat, end: nat) {
    && start <= end < |t| && |copy| == end - start + 1
    && forall p: nat :: start <= p <= end ==> copy[p - start] == if p in calls then Marked(t[p], filter) else t[p]
  }

  lemma RenameOne(t: TokenList, copy: TokenList, calls: seq<nat>, filter: set<string>, start: nat, end: nat, pos: nat)
    requires Renamed(t, copy, calls, filter, start, end) && start <= pos <= end
    ensures |copy| == end - start + 1 && copy[pos - start].sym == t[pos].sym
    ensures t[pos].str !in filter ==> Renamed(t, copy, calls + [pos], filter, start, end)
    ensures t[pos].str in filter ==>
      Renamed(t, copy[pos - start := Marked(t[pos], filter)], calls + [pos], filter, start, end)
  {
  }

  /** The guarded code of a function holds its copy. */
  ghost predicate UnsafeCode(code: TokenList, t: TokenList, filter: set<string>, name: string, namepos: nat,
                             first: nat, end: nat, start': nat, end': nat)
  {
    exists copy: TokenList ::
      Guarded(code, copy, name) && IsCopy(copy, t, filter, namepos, first, end, start', end')
  }

  lemma RenamedIsCopy(copy: TokenList, t: TokenList, calls: seq<nat>, filter: set<string>, namepos: nat, first: nat,
                      end: nat, start': nat, end': nat)
    requires CallsKnown(t, calls, filter, first, end) && start' <= end' < |t| && |copy| == end' - start' + 1
    requires forall p: nat ::
      start' <= p <= end' ==> copy[p - start'] == if p in calls + [namepos] then Marked(t[p], filter) else t[p]
    ensures IsCopy(copy, t, filter, namepos, first, end, start', end')
  {
    hide CallAt;
  }

  /** The copy of the stretch with the names at the recorded positions replaced. */
  method CopyOut(t: TokenList, filter: set<string>, positions: seq<nat>, start: nat, end: nat,
                 ghost namepos: nat, ghost calls: seq<nat>, ghost first: nat, ghost end0: nat)
    returns (copy: TokenList)
    requires CallsKnown(t, calls, filter, first, end0) && positions == calls + [namepos]
    requires start <= namepos <= end < |t| && start <= first && end0 <= end
    ensures copy != [] && IsCopy(copy, t, filter, namepos, first, end0, start, end)
  {
    hide CallsKnown, IsCopy;
    CallsWithin(t, calls, filter, first, end0);
    copy := Rename(t, filter, positions, start, end);
    RenamedIsCopy(copy, t, calls, filter, namepos, first, end0, start, end);
  }

  method Wrap(copy: TokenList, name: string) returns (code: TokenList)
    requires copy != []
    ensures Guarded(code, copy, name)
  {
    code := [Token(PPOther, "#ifdef USE_HPC_GUARDS\n")] + copy;
    if code[|code| - 1].sym != EOL {
      code := code + [NL];
    }
    var define := Token(PPOther, "#define " + UnsafeName(name) + " " + name + "\n");
    code := code + [Token(PPOther, "#else\n"), define, Token(PPOther, "#endif\n")];
  }

  /** GenUnsafeCode for one function. */
  method GenUnsafeCode(func: FuncSpec, t: TokenList, filter: set<string>, ghost first: nat)
    requires Lexed(t) && Shape(t, func.start, func.namepos, func.body, func.end)
    requires CallsKnown(t, func.callpositions, filter, first, func.end) && func.start <= first
    modifies func`start, func`end, func`callpositions, func`unsafeCode
    ensures Widened(t, old(func.start), old(func.end), func.start, func.end)
    ensures func.start <= func.namepos < func.end < |t| - 1 && t[func.namepos].sym == Ident
      && t[func.namepos + 1].sym == LPar
    ensures func.callpositions == old(func.callpositions) + [func.namepos]
    ensures UnsafeCode(func.unsafeCode, t, filter, func.name, func.namepos, first, old(func.end), func.start, func.end)
  {
    ghost var end0 := func.end;
    ghost var calls := func.callpositions;
    ghost var start0 := func.start;
    assert start0 <= end0 < |t| - 1;
    hide CallAt, Lexed, Closes, IsCopy, Shape, Guarded, Marked, CallsKnown, Widened, UnsafeCode;
    func.start, func.end := Widen(t, func.start, func.end);
    WidenedShape(t, start0, func.namepos, func.body, end0, func.start, func.end);
    var funcpos := FindName(t, func.start, func.end, func.namepos);
    func.callpositions := func.callpositions + [funcpos];
    var copy := CopyOut(t, filter, func.callpositions, func.start, func.end, func.namepos, calls, first, end0);
    func.unsafeCode := Wrap(copy, func.name);
    IsUnsafeCode(func.unsafeCode, copy, t, filter, func.name, func.namepos, first, end0, func.start, func.end);
  }

  lemma CallsWithin(t: TokenList, calls: seq<nat>, filter: set<string>, first: nat, end: nat)
    requires CallsKnown(t, calls, filter, first, end)
    ensures forall p :: p in calls ==> p < |t| && first <= p <= end
  {
  }

  lemma IsUnsafeCode(code: TokenList, copy: TokenList, t: TokenList, filter: set<string>, name: string, namepos: nat,
                     first: nat, end: nat, start': nat, end': nat)
    requires Guarded(code, copy, name) && IsCopy(copy, t, filter, namepos, first, end, start', end')
    ensures UnsafeCode(code, t, filter, name, namepos, first, end, start', end')
  {
  }

  lemma WidenedShape(t: TokenList, start: nat, namepos: nat, body: nat, end: nat, start': nat, end': nat)
    requires Shape(t, start, namepos, body, end) && Widened(t, start, end, start', end')
    ensures start' <= start <= namepos < end <= end' < |t| - 1 && t[namepos].sym == Ident && t[namepos + 1].sym == LPar
    ensures forall i :: start' <= i <= namepos ==> t[i].sym != LPar
  {
  }

  // ---------- the rewritten file ----------

  function LineToken(line: nat, filename: string): Token {
    Token(PPOther, LINE + (Decimal(line) + (" \"" + filename + "\"\n")))
  }

  /** ADD_LINE_DIR: on a line of its own, the directive that names the line of token `pos`. */
  function LineDir(t: TokenList, pos: nat, filename: string): TokenList
    requires pos <= |t|
  {
    (if pos > 0 && t[pos - 1].sym != EOL then [NL] else [])
    + [LineToken(LineAt(t, pos), filename)]
  }

  method AddLineDir(t: TokenList, linenos: seq<nat>, pos: nat, filename: string, done: TokenList)
    returns (rewritten: TokenList)
    requires pos < |t| && Numbered(t, linenos)
    ensures rewritten == done + LineDir(t, pos, filename)
  {
    rewritten := done;
    if pos > 0 && t[pos - 1].sym != EOL {
      rewritten := rewritten + [NL];
    }
    rewritten := rewritten + [LineToken(linenos[pos], filename)];
  }

  /** After the directive the compiler reports the line of the token it was made for. */
  lemma DirectiveNames(t: TokenList, pos: nat, filename: string, before: TokenList)
    requires pos <= |t|
    ensures Reported(before + LineDir(t, pos, filename)) == LineAt(t, pos)
  {
    hide LineAt, Decimal, Number, Reported, Newlines;
    var n, rest, dir := Decimal(LineAt(t, pos)), " \"" + filename + "\"\n", LineToken(LineAt(t, pos), filename);
    var lead := if pos > 0 && t[pos - 1].sym != EOL then [NL] else [];
    DecimalRead(LineAt(t, pos), rest);
    AfterLine(n + rest);
    assert before + LineDir(t, pos, filename) == before + lead + [dir];
    ReportedStep(before + lead, dir);
  }

  lemma AfterLine(s: string)
    ensures LINE <= LINE + s && (LINE + s)[|LINE|..] == s
  {
  }

  datatype Part = Kept(text: TokenList) | Inserted(text: TokenList)

  ghost function Whole(parts: seq<Part>): TokenList {
    if parts == [] then [] else Whole(parts[..|parts| - 1]) + parts[|parts| - 1].text
  }

  /** What is left when the inserted parts are deleted. */
  ghost function Originals(parts: seq<Part>): TokenList {
    if parts == [] then []
    else
      var last := parts[|parts| - 1];
      Originals(parts[..|parts| - 1]) + (if last.Kept? then last.text else [])
  }

  lemma NoParts()
    ensures Whole([]) == [] && Originals([]) == []
  {
  }

  lemma OneMore(parts: seq<Part>, part: Part)
    ensures Whole(parts + [part]) == Whole(parts) + part.text
    ensures Originals(parts + [part]) == Originals(parts) + (if part.Kept? then part.text else [])
  {
    assert (parts + [part])[..|parts|] == parts;
  }

  /** What is inserted after a function that starts at `start` and ends at `end`. */
  function AfterFunc(t: TokenList, start: nat, end: nat, code: TokenList, filename: string, linedirs: bool): TokenList
    requires start <= end < |t|
  {
    if linedirs then [NL, NL] + LineDir(t, start, filename) + code + LineDir(t, end + 1, filename)
    else [NL, NL] + code
  }

  /** What was made of a function: the stretch of the file and its unsafe code. */
  datatype Copy = Copy(name: string, start: nat, end: nat, code: TokenList)

  ghost function Copies(funcs: seq<FuncSpec>): seq<Copy>
    reads funcs
  {
    seq(|funcs|, i requires 0 <= i < |funcs| reads funcs =>
      Copy(funcs[i].name, funcs[i].start, funcs[i].end, funcs[i].unsafeCode))
  }

  ghost predicate Placed(t: TokenList, copies: seq<Copy>) {
    && (forall i :: 0 <= i < |copies| ==> copies[i].start <= copies[i].end < |t| - 1)
    && (forall i, j :: 0 <= i < j < |copies| ==> copies[i].end < copies[j].end)
  }

  /** Where the tokens go on after the first n functions. */
  ghost function After(copies: seq<Copy>, n: nat): nat
    requires n <= |copies|
  {
    if n == 0 then 0 else copies[n - 1].end + 1
  }

  /** The rewritten file up to the n-th function: the code of each one is inserted right behind it. */
  ghost function PartsOf(t: TokenList, copies: seq<Copy>, n: nat, filename: string, linedirs: bool): seq<Part>
    requires Placed(t, copies) && n <= |copies|
  {
    if n == 0 then (if linedirs then [Inserted(LineDir(t, 0, filename))] else [])
    else
      var c := copies[n - 1];
      PartsOf(t, copies, n - 1, filename, linedirs)
      + [Kept(t[After(copies, n - 1)..c.end + 1])]
      + [Inserted(AfterFunc(t, c.start, c.end, c.code, filename, linedirs))]
  }

  lemma PartsStep(t: TokenList, copies: seq<Copy>, i: nat, filename: string, linedirs: bool)
    requires Placed(t, copies) && i < |copies| && After(copies, i) <= copies[i].end + 1
    ensures var c := copies[i];
      PartsOf(t, copies, i + 1, filename, linedirs) == PartsOf(t, copies, i, filename, linedirs)
        + [Kept(t[After(copies, i)..c.end + 1])] + [Inserted(AfterFunc(t, c.start, c.end, c.code, filename, linedirs))]
  {
    hide AfterFunc;
  }

  ghost function AllParts(t: TokenList, copies: seq<Copy>, filename: string, linedirs: bool): seq<Part>
    requires Placed(t, copies) && t != []
  {
    NextPart(t, copies, |copies|);
    PartsOf(t, copies, |copies|, filename, linedirs) + [Kept(t[After(copies, |copies|)..])]
  }

  lemma NextPart(t: TokenList, copies: seq<Copy>, n: nat)
    requires Placed(t, copies) && n <= |copies| && t != []
    ensures After(copies, n) < |t|
    ensures n < |copies| ==> copies[n].start <= copies[n].end < |t| - 1 && After(copies, n) <= copies[n].end + 1
  {
  }

  lemma {:induction false} PartsKeep(t: TokenList, copies: seq<Copy>, n: nat, filename: string, linedirs: bool)
    requires Placed(t, copies) && n <= |copies| && t != []
    ensures After(copies, n) < |t| && Originals(PartsOf(t, copies, n, filename, linedirs)) == t[..After(copies, n)]
  {
    hide Originals, Whole, LineDir, AfterFunc, Placed;
    NextPart(t, copies, n);
    NoParts();
    if n == 0 {
      OneMore([], Inserted(LineDir(t, 0, filename)));
      assert [] + [Inserted(LineDir(t, 0, filename))] == [Inserted(LineDir(t, 0, filename))];
    } else {
      NextPart(t, copies, n - 1);
      PartsKeep(t, copies, n - 1, filename, linedirs);
      var c, parts := copies[n - 1], PartsOf(t, copies, n - 1, filename, linedirs);
      var kept := Kept(t[After(copies, n - 1)..c.end + 1]);
      OneMore(parts, kept);
      OneMore(parts + [kept], Inserted(AfterFunc(t, c.start, c.end, c.code, filename, linedirs)));
      assert t[..After(copies, n - 1)] + kept.text == t[..c.end + 1];
    }
  }

  /** Deleting the insertions from a rewritten file gives back every token, in order. */
  lemma NothingLost(t: TokenList, copies: seq<Copy>, filename: string, linedirs: bool)
    requires Placed(t, copies) && t != []
    ensures Originals(AllParts(t, copies, filename, linedirs)) == t
  {
    hide Originals, Whole, PartsOf;
    var n := |copies|;
    PartsKeep(t, copies, n, filename, linedirs);
    OneMore(PartsOf(t, copies, n, filename, linedirs), Kept(t[After(copies, n)..]));
    assert t[..After(copies, n)] + t[After(copies, n)..] == t;
  }

  // ---------- what stands between the tokens of the file ----------

  /** A directive with this line of this file. */
  ghost predicate NamesLine(k: Token, line: nat, filename: string) {
    k.sym == PPOther && exists digits: string ::
      IsNumber(digits, line) && k.str == "#line " + digits + " \"" + filename + "\"\n"
  }

  /** Line ends, and with the option line directives of the file. */
  ghost predicate Filling(s: TokenList, filename: string, linedirs: bool) {
    forall k :: k in s ==> k == Token(EOL, "\n") || (linedirs && exists line: nat :: NamesLine(k, line, filename))
  }

  /** With the option, the last of them names the line of the token behind. */
  ghost predicate LeadsTo(s: TokenList, line: nat, filename: string, linedirs: bool) {
    Filling(s, filename, linedirs) && (linedirs ==> s != [] && NamesLine(s[|s| - 1], line, filename))
  }

  /** The code of the copy, on lines of its own. */
  ghost predicate Around(gap: TokenList, lead: TokenList, trail: TokenList, t: TokenList, c: Copy, filename: string,
                         linedirs: bool)
  {
    && gap == lead + c.code + trail && lead != [] && c.start <= c.end < |t|
    && LeadsTo(lead, LineAt(t, c.start), filename, linedirs) && LeadsTo(trail, LineAt(t, c.end + 1), filename, linedirs)
  }

  ghost predicate HoldsCode(gap: TokenList, t: TokenList, c: Copy, filename: string, linedirs: bool) {
    exists lead, trail :: Around(gap, lead, trail, t, c, filename, linedirs)
  }

  ghost predicate EndsCopy(copies: seq<Copy>, p: nat) {
    exists c :: c in copies && c.end + 1 == p
  }

  /** What may stand in front of token p: the first line directive, the code of the copy that ends there, or nothing. */
  ghost predicate Gap(gap: TokenList, t: TokenList, copies: seq<Copy>, p: nat, filename: string, linedirs: bool) {
    && (p == 0 ==> if linedirs then LeadsTo(gap, 1, filename, linedirs) else gap == [])
    && (forall c :: c in copies && c.end + 1 == p ==> HoldsCode(gap, t, c, filename, linedirs))
    && (p > 0 && !EndsCopy(copies, p) ==> gap == [])
  }

  /** What stands in `w` between the places of token p - 1 and of token p may stand there. */
  ghost predicate GapAt(w: TokenList, t: TokenList, copies: seq<Copy>, filename: string, linedirs: bool,
                        place: seq<nat>, p: nat)
    requires p <= |place|
  {
    var from, end := if p == 0 then 0 else place[p - 1] + 1, if p < |place| then place[p] else |w|;
    from <= end <= |w| && Gap(w[from..end], t, copies, p, filename, linedirs)
  }

  /** Token p is at place[p], as far as the places go, and only what may stand in front of a token does. */
  ghost predicate Laid(w: TokenList, t: TokenList, copies: seq<Copy>, filename: string, linedirs: bool, place: seq<nat>)
  {
    && |place| <= |t| && (forall p :: 0 <= p < |place| ==> place[p] < |w| && w[place[p]] == t[p])
    && forall p: nat :: p <= |place| ==> GapAt(w, t, copies, filename, linedirs, place, p)
  }

  /** All tokens of the file in their order, the code of each copy between the end of its stretch and the next token,
      and nothing else but line ends and line directives. */
  ghost predicate Woven(w: TokenList, t: TokenList, copies: seq<Copy>, filename: string, linedirs: bool) {
    exists place :: |place| == |t| && Laid(w, t, copies, filename, linedirs, place)
  }

  lemma GapStays(w: TokenList, t: TokenList, copies: seq<Copy>, filename: string, linedirs: bool, place: seq<nat>,
                 p: nat, k: Token, gap: TokenList)
    requires p <= |place| && GapAt(w, t, copies, filename, linedirs, place, p)
    ensures GapAt(w + [k] + gap, t, copies, filename, linedirs, place + [|w|], p)
  {
    hide Gap;
    var w', from, end := w + [k] + gap, if p == 0 then 0 else place[p - 1] + 1, if p < |place| then place[p] else |w|;
    assert w'[from..end] == w[from..end];
  }

  lemma LayToken(w: TokenList, t: TokenList, copies: seq<Copy>, filename: string, linedirs: bool, place: seq<nat>,
                 gap: TokenList)
    requires Laid(w, t, copies, filename, linedirs, place) && |place| < |t|
    requires Gap(gap, t, copies, |place| + 1, filename, linedirs)
    ensures Laid(w + [t[|place|]] + gap, t, copies, filename, linedirs, place + [|w|])
  {
    hide Gap;
    var k, n := t[|place|], |place| + 1;
    var w', place' := w + [k] + gap, place + [|w|];
    assert GapAt(w', t, copies, filename, linedirs, place', n) by {
      assert w'[|w| + 1..|w'|] == gap;
    }
    hide GapAt;
    forall p: nat | p < n ensures GapAt(w', t, copies, filename, linedirs, place', p) {
      GapStays(w, t, copies, filename, linedirs, place, p, k, gap);
    }
  }

  lemma NoGap(t: TokenList, copies: seq<Copy>, p: nat, filename: string, linedirs: bool)
    requires p > 0 && !EndsCopy(copies, p)
    ensures Gap([], t, copies, p, filename, linedirs)
  {
    hide HoldsCode;
  }

  lemma {:induction false} LayRun(w: TokenList, t: TokenList, copies: seq<Copy>, filename: string, linedirs: bool,
                                  place: seq<nat>, end: nat) returns (place': seq<nat>)
    requires Laid(w, t, copies, filename, linedirs, place) && |place| <= end <= |t|
    requires forall p: nat :: |place| < p <= end ==> !EndsCopy(copies, p)
    ensures |place'| == end && Laid(w + t[|place|..end], t, copies, filename, linedirs, place')
    decreases end - |place|
  {
    hide Laid, EndsCopy, Gap;
    var n := |place|;
    if n == end {
      place' := place;
      assert w + t[n..end] == w;
    } else {
      NoGap(t, copies, n + 1, filename, linedirs);
      LayToken(w, t, copies, filename, linedirs, place, []);
      place' := LayRun(w + [t[n]] + [], t, copies, filename, linedirs, place + [|w|], end);
      assert w + t[n..end] == w + [t[n]] + [] + t[n + 1..end];
    }
  }

  lemma LineExample()
    ensures LineToken(120, "a.h").str == "#line 120 \"a.h\"\n"
  {
    assert Decimal(1) == "1" && Decimal(12) == "12" && Decimal(120) == "120";
  }

  lemma DirectiveText(line: nat, filename: string)
    ensures NamesLine(LineToken(line, filename), line, filename)
  {
    DecimalDigits(line);
    var digits := Decimal(line);
    assert LINE + (digits + (" \"" + filename + "\"\n")) == "#line " + digits + " \"" + filename + "\"\n";
  }

  lemma DirLeads(t: TokenList, pos: nat, filename: string, before: TokenList)
    requires pos <= |t| && forall k :: k in before ==> k == NL
    ensures LeadsTo(before + LineDir(t, pos, filename), LineAt(t, pos), filename, true)
  {
    hide NamesLine, LineAt, LineToken;
    DirectiveText(LineAt(t, pos), filename);
  }

  lemma CodeHeld(t: TokenList, c: Copy, filename: string, linedirs: bool)
    requires c.start <= c.end < |t|
    ensures HoldsCode(AfterFunc(t, c.start, c.end, c.code, filename, linedirs), t, c, filename, linedirs)
  {
    hide LeadsTo, LineDir, LineAt;
    var gap := AfterFunc(t, c.start, c.end, c.code, filename, linedirs);
    if linedirs {
      DirLeads(t, c.start, filename, [NL, NL]);
      DirLeads(t, c.end + 1, filename, []);
      var lead, trail := [NL, NL] + LineDir(t, c.start, filename), [] + LineDir(t, c.end + 1, filename);
      assert gap == lead + c.code + trail;
      assert Around(gap, lead, trail, t, c, filename, linedirs);
    } else {
      OnlyLineEnds(LineAt(t, c.start), filename);
      OnlyLineEnds(LineAt(t, c.end + 1), filename);
      assert gap == [NL, NL] + c.code + [];
      assert Around(gap, [NL, NL], [], t, c, filename, linedirs);
    }
  }

  lemma OnlyLineEnds(line: nat, filename: string)
    ensures LeadsTo([NL, NL], line, filename, false) && LeadsTo([], line, filename, false)
  {
  }

  lemma CopyGap(t: TokenList, copies: seq<Copy>, n: nat, filename: string, linedirs: bool)
    requires Placed(t, copies) && n < |copies| && t != []
    ensures var c := copies[n];
      && c.start <= c.end < |t| - 1
      && Gap(AfterFunc(t, c.start, c.end, c.code, filename, linedirs), t, copies, c.end + 1, filename, linedirs)
  {
    hide HoldsCode, AfterFunc;
    CodeHeld(t, copies[n], filename, linedirs);
    assert copies[n] in copies;
  }

  lemma NoEndBetween(t: TokenList, copies: seq<Copy>, n: nat)
    requires Placed(t, copies) && n <= |copies| && t != []
    ensures forall p: nat ::
      After(copies, n) < p <= (if n < |copies| then copies[n].end else |t|) ==> !EndsCopy(copies, p)
    ensures n < |copies| ==> After(copies, n) <= copies[n].end < |t|
  {
  }

  lemma {:induction false} LayParts(t: TokenList, copies: seq<Copy>, n: nat, filename: string, linedirs: bool)
    returns (place: seq<nat>)
    requires Placed(t, copies) && n <= |copies| && t != []
    ensures |place| == After(copies, n) < |t|
    ensures Laid(Whole(PartsOf(t, copies, n, filename, linedirs)), t, copies, filename, linedirs, place)
  {
    hide Whole, PartsOf, AfterFunc, Laid, Gap, LineDir, Originals, Placed, EndsCopy, LineAt;
    NextPart(t, copies, n);
    if n == 0 {
      place := [];
      Start(t, copies, filename, linedirs);
      LaidFirst(t, copies, filename, linedirs);
    } else {
      var before := LayParts(t, copies, n - 1, filename, linedirs);
      Grown(t, copies, n - 1, filename, linedirs);
      var c, w := copies[n - 1], Whole(PartsOf(t, copies, n - 1, filename, linedirs));
      NoEndBetween(t, copies, n - 1);
      NextPart(t, copies, n - 1);
      CopyGap(t, copies, n - 1, filename, linedirs);
      place := LayRun(w, t, copies, filename, linedirs, before, c.end);
      var run := w + t[|before|..c.end];
      var gap := AfterFunc(t, c.start, c.end, c.code, filename, linedirs);
      LayToken(run, t, copies, filename, linedirs, place, gap);
      assert w + t[|before|..c.end + 1] == run + [t[c.end]];
      place := place + [|run|];
    }
  }

  lemma LaidFirst(t: TokenList, copies: seq<Copy>, filename: string, linedirs: bool)
    ensures Laid(if linedirs then LineDir(t, 0, filename) else [], t, copies, filename, linedirs, [])
  {
    hide LineDir, LeadsTo, HoldsCode;
    var w := if linedirs then LineDir(t, 0, filename) else [];
    DirLeads(t, 0, filename, []);
    assert w[0..|w|] == w && [] + LineDir(t, 0, filename) == LineDir(t, 0, filename);
    assert LineAt(t, 0) == 1;
  }

  /** In the rewritten file the code of each copy stands right behind its stretch, with and without line directives. */
  lemma CodeInPlace(t: TokenList, copies: seq<Copy>, filename: string, linedirs: bool)
    requires Placed(t, copies) && t != []
    ensures Woven(Whole(AllParts(t, copies, filename, linedirs)), t, copies, filename, linedirs)
  {
    hide Whole, PartsOf, Laid, Originals, Placed, EndsCopy;
    var n := |copies|;
    var place := LayParts(t, copies, n, filename, linedirs);
    NoEndBetween(t, copies, n);
    var parts := PartsOf(t, copies, n, filename, linedirs);
    place := LayRun(Whole(parts), t, copies, filename, linedirs, place, |t|);
    OneMore(parts, Kept(t[After(copies, n)..]));
    assert t[After(copies, n)..|t|] == t[After(copies, n)..];
  }

  /** Tokens between which no copy ends stand next to each other in the rewritten file. */
  lemma {:induction false} StretchStands(w: TokenList, t: TokenList, copies: seq<Copy>, filename: string,
                                         linedirs: bool, place: seq<nat>, start: nat, end: nat)
    requires Laid(w, t, copies, filename, linedirs, place) && |place| == |t| && start <= end < |t|
    requires forall c :: c in copies ==> !(start <= c.end < end)
    ensures place[end] == place[start] + end - start && Same(t, w, start, end, place[start])
  {
    if start < end {
      hide Laid;
      StretchStands(w, t, copies, filename, linedirs, place, start, end - 1);
      NextTo(w, t, copies, filename, linedirs, place, end);
    }
  }

  lemma NextTo(w: TokenList, t: TokenList, copies: seq<Copy>, filename: string, linedirs: bool, place: seq<nat>, p: nat)
    requires Laid(w, t, copies, filename, linedirs, place) && 0 < p < |place| && !EndsCopy(copies, p)
    ensures p < |t| && place[p] == place[p - 1] + 1 && place[p] < |w| && w[place[p]] == t[p]
  {
    hide LeadsTo, HoldsCode;
    assert GapAt(w, t, copies, filename, linedirs, place, p);
  }

  lemma MiddlePart(w: TokenList, from: nat, end: nat, lead: TokenList, code: TokenList, trail: TokenList)
    requires from <= end <= |w| && w[from..end] == lead + code + trail
    ensures from + |lead| + |code| <= end && w[from + |lead|..from + |lead| + |code|] == code
  {
    assert |w[from..end]| == |lead + code + trail|;
    forall i | 0 <= i < |code| ensures w[from + |lead| + i] == code[i] {
      assert w[from..end][|lead| + i] == (lead + code + trail)[|lead| + i];
    }
  }

  lemma CodeInGap(w: TokenList, from: nat, end: nat, t: TokenList, c: Copy, filename: string, linedirs: bool)
    returns (at: nat)
    requires from <= end <= |w| && HoldsCode(w[from..end], t, c, filename, linedirs)
    ensures at + |c.code| <= end && w[at..at + |c.code|] == c.code
  {
    hide LeadsTo, LineAt;
    var gap := w[from..end];
    var lead, trail :| Around(gap, lead, trail, t, c, filename, linedirs);
    at := from + |lead|;
    MiddlePart(w, from, end, lead, c.code, trail);
  }

  /** The code of each copy stands in the rewritten file in one piece. */
  lemma CodeStands(w: TokenList, t: TokenList, copies: seq<Copy>, filename: string, linedirs: bool, c: Copy)
    returns (at: nat)
    requires Woven(w, t, copies, filename, linedirs) && c in copies && c.end < |t| - 1
    ensures at + |c.code| < |w| && w[at..at + |c.code|] == c.code
  {
    hide HoldsCode, LeadsTo;
    var place :| |place| == |t| && Laid(w, t, copies, filename, linedirs, place);
    assert GapAt(w, t, copies, filename, linedirs, place, c.end + 1);
    at := CodeInGap(w, place[c.end] + 1, place[c.end + 1], t, c, filename, linedirs);
  }

  // ---------- definitions in the rewritten file ----------

  /** The stretch of `t` has the same tokens from `at` on in `w`. */
  ghost predicate Same(t: TokenList, w: TokenList, start: nat, end: nat, at: nat) {
    start <= end < |t| && at + end - start < |w| && forall p :: start <= p <= end ==> w[at + (p - start)] == t[p]
  }

  /** The same symbols, but maybe other names. */
  ghost predicate SameForm(t: TokenList, w: TokenList, start: nat, end: nat, at: nat) {
    && start <= end < |t| && at + end - start < |w|
    && forall p :: start <= p <= end ==> w[at + (p - start)].sym == t[p].sym
  }

  ghost predicate Defines(w: TokenList, name: string, start: nat, namepos: nat, body: nat, end: nat) {
    Shape(w, start, namepos, body, end) && w[namepos].str == name
  }

  /** The file has an inline function of that name. */
  ghost predicate DefinedIn(w: TokenList, name: string) {
    exists start: nat, namepos: nat, body: nat, end: nat :: Defines(w, name, start, namepos, body, end)
  }

  /** But for blanks, the stretch stands alone between #ifdef USE_HPC_GUARDS at `a` and #else at `b`, behind which the
      unsafe name is made a macro for the name itself. */
  ghost predicate UnderGuard(w: TokenList, name: string, start: nat, end: nat, a: nat, b: nat) {
    && a < start <= end < b && b + 2 < |w|
    && w[a] == Token(PPOther, "#ifdef USE_HPC_GUARDS\n") && (forall i :: a < i < start ==> w[i].sym == WS)
    && w[b] == Token(PPOther, "#else\n") && (forall i :: end < i < b ==> w[i].sym == WS || w[i].sym == EOL)
    && w[b + 1] == Token(PPOther, "#define " + UnsafeName(name) + " " + name + "\n")
    && w[b + 2] == Token(PPOther, "#endif\n")
  }

  ghost predicate GuardAround(w: TokenList, name: string, start: nat, end: nat) {
    exists a: nat, b: nat :: UnderGuard(w, name, start, end, a, b)
  }

  /** The file has an inline function of the unsafe name under the guard. */
  ghost predicate CopyIn(w: TokenList, name: string) {
    exists start: nat, namepos: nat, body: nat, end: nat ::
      Defines(w, UnsafeName(name), start, namepos, body, end) && GuardAround(w, name, start, end)
  }

  lemma {:induction false} DepthMoves(t: TokenList, w: TokenList, start: nat, end: nat, at: nat, lo: nat, hi: nat)
    requires SameForm(t, w, start, end, at) && start <= lo <= hi <= end + 1
    ensures Depth(w, at + (lo - start), at + (hi - start)) == Depth(t, lo, hi)
    decreases hi
  {
    if lo < hi {
      DepthMoves(t, w, start, end, at, lo, hi - 1);
      assert w[at + (hi - 1 - start)].sym == t[hi - 1].sym;
    }
  }

  lemma ClosesMoves(t: TokenList, w: TokenList, start: nat, end: nat, at: nat, body: nat)
    requires SameForm(t, w, start, end, at) && start <= body && Closes(t, body, end)
    ensures Closes(w, at + (body - start), at + (end - start))
  {
    hide Depth;
    var lo := at + (body - start);
    forall i: nat | lo < i <= at + (end - start) ensures OpenAt(w, lo, i) {
      var j := start + (i - at);
      assert OpenAt(t, body, j);
      DepthMoves(t, w, start, end, at, body, j);
    }
    DepthMoves(t, w, start, end, at, body, end + 1);
    assert w[at + (body - start)].sym == t[body].sym && w[at + (end - start)].sym == t[end].sym;
  }

  lemma StarterMoves(t: TokenList, w: TokenList, start: nat, end: nat, at: nat, namepos: nat)
    requires SameForm(t, w, start, end, at) && Starter(t, start) && start < namepos <= end && t[namepos].sym == Ident
    ensures Starter(w, at)
  {
    assert w[at + (start - start)].sym == t[start].sym;
    if t[start].sym == Static {
      var h :| start < h < |t| && t[h].sym == Inline && forall i :: start < i < h ==> Blank(t[i].sym);
      assert h < namepos;
      var h' := at + (h - start);
      assert w[h'].sym == Inline;
      forall i | at < i < h' ensures Blank(w[i].sym) {
        var p := start + (i - at);
        assert w[at + (p - start)].sym == t[p].sym;
      }
    }
  }

  lemma NamesMove(t: TokenList, w: TokenList, start: nat, namepos: nat, body: nat, end: nat, at: nat)
    requires SameForm(t, w, start, end, at) && start < namepos && namepos + 1 < body <= end
    requires t[namepos].sym == Ident && t[namepos + 1].sym == LPar
    requires forall i :: start <= i <= namepos ==> t[i].sym != LPar
    requires forall i :: namepos < i < body ==> t[i].sym != LBrace
    ensures w[at + (namepos - start)].sym == Ident && w[at + (namepos - start) + 1].sym == LPar
    ensures forall i :: at <= i <= at + (namepos - start) ==> w[i].sym != LPar
    ensures forall i :: at + (namepos - start) < i < at + (body - start) ==> w[i].sym != LBrace
  {
    forall i | at <= i <= at + (end - start) ensures w[i].sym == t[start + (i - at)].sym {
      var p := start + (i - at);
      assert w[at + (p - start)].sym == t[p].sym;
    }
  }

  lemma ShapeMoves(t: TokenList, w: TokenList, start: nat, namepos: nat, body: nat, end: nat, at: nat)
    requires SameForm(t, w, start, end, at) && at + end - start < |w| - 1 && Shape(t, start, namepos, body, end)
    ensures Shape(w, at, at + (namepos - start), at + (body - start), at + (end - start))
  {
    NamesMove(t, w, start, namepos, body, end, at);
    StarterMoves(t, w, start, end, at, namepos);
    ClosesMoves(t, w, start, end, at, body);
    hide Closes, SameForm, Starter;
  }

  lemma MarkedForm(k: Token, filter: set<string>)
    ensures Marked(k, filter).sym == k.sym
  {
  }

  lemma CopyForm(code: TokenList, copy: TokenList, t: TokenList, filter: set<string>, name: string, namepos: nat,
                 first: nat, end0: nat, start: nat, end: nat)
    requires Guarded(code, copy, name) && IsCopy(copy, t, filter, namepos, first, end0, start, end)
    ensures SameForm(t, code, start, end, 1) && |code| >= |copy| + 4
    ensures start <= namepos <= end ==> code[1 + (namepos - start)] == Marked(t[namepos], filter)
  {
    hide CallAt, Marked;
    forall p | start <= p <= end ensures code[1 + (p - start)] == copy[p - start] && copy[p - start].sym == t[p].sym {
      assert code[1..|copy| + 1][p - start] == code[1 + (p - start)];
      assert copy[p - start] == Copied(t, filter, namepos, first, end0, p);
      MarkedForm(t[p], filter);
    }
    if start <= namepos <= end {
      assert code[1..|copy| + 1][namepos - start] == code[1 + (namepos - start)];
      assert copy[namepos - start] == Copied(t, filter, namepos, first, end0, namepos);
    }
  }

  lemma SymbolsStand(code: TokenList, t: TokenList, start: nat, end: nat)
    requires SameForm(t, code, start, end, 1)
    ensures start <= end < |t| && |code| > end - start + 1
    ensures forall i :: 0 < i <= 1 + (end - start) ==> code[i].sym == t[start + (i - 1)].sym
  {
    forall i | 0 < i <= 1 + (end - start) ensures code[i].sym == t[start + (i - 1)].sym {
      var p := start + (i - 1);
      assert code[1 + (p - start)].sym == t[p].sym;
    }
  }

  lemma BlanksStand(code: TokenList, t: TokenList, start0: nat, end0: nat, start: nat, end: nat)
    requires Widened(t, start0, end0, start, end) && |code| > end - start + 1
    requires forall i :: 0 < i <= 1 + (end - start) ==> code[i].sym == t[start + (i - 1)].sym
    ensures start <= start0 <= end0 <= end
    ensures forall i :: 0 < i < 1 + (start0 - start) ==> code[i].sym == WS
    ensures forall i :: 1 + (end0 - start) < i <= 1 + (end - start) ==> code[i].sym == WS || code[i].sym == EOL
  {
  }

  lemma LineEndStands(code: TokenList, copy: TokenList, name: string)
    requires Guarded(code, copy, name)
    ensures |copy| + 4 <= |code| && forall i :: |copy| + 1 <= i < |code| - 3 ==> code[i].sym == EOL
  {
    var n, b := |copy| + 1, |code| - 3;
    forall i | n <= i < b ensures code[i].sym == EOL {
      assert code[i] == code[n..b][i - n];
    }
  }

  lemma GuardStands(code: TokenList, copy: TokenList, name: string, t: TokenList, start0: nat, end0: nat, start: nat,
                    end: nat)
    requires Guarded(code, copy, name) && Widened(t, start0, end0, start, end) && SameForm(t, code, start, end, 1)
    requires |copy| == end - start + 1
    ensures UnderGuard(code, name, 1 + (start0 - start), 1 + (end0 - start), 0, |code| - 3)
  {
    SymbolsStand(code, t, start, end);
    BlanksStand(code, t, start0, end0, start, end);
    LineEndStands(code, copy, name);
    hide SameForm, Widened;
  }

  /** The code of a copy defines the unsafe name under the guard. */
  lemma CodeDefines(code: TokenList, t: TokenList, filter: set<string>, name: string, namepos: nat, body: nat,
                    first: nat, start0: nat, end0: nat, start: nat, end: nat)
    requires Shape(t, start0, namepos, body, end0) && Widened(t, start0, end0, start, end)
    requires UnsafeCode(code, t, filter, name, namepos, first, end0, start, end)
    requires Marked(t[namepos], filter).str == UnsafeName(name)
    ensures CopyIn(code, name)
  {
    hide Shape, Guarded, IsCopy, Widened, SameForm, Marked, UnderGuard;
    var copy: TokenList :| Guarded(code, copy, name) && IsCopy(copy, t, filter, namepos, first, end0, start, end);
    CopyForm(code, copy, t, filter, name, namepos, first, end0, start, end);
    CopyLength(copy, t, filter, namepos, first, end0, start, end);
    GuardStands(code, copy, name, t, start0, end0, start, end);
    WidenedShape(t, start0, namepos, body, end0, start, end);
    ShapeWithin(t, start0, namepos, body, end0);
    var at: nat := 1 + (start0 - start);
    FormInside(t, code, start, end, start0, end0);
    ShapeMoves(t, code, start0, namepos, body, end0, at);
    assert at + (namepos - start0) == 1 + (namepos - start);
    assert GuardAround(code, name, at, at + (end0 - start0));
    assert Defines(code, UnsafeName(name), at, at + (namepos - start0), at + (body - start0), at + (end0 - start0));
  }

  lemma FormInside(t: TokenList, w: TokenList, start: nat, end: nat, start0: nat, end0: nat)
    requires SameForm(t, w, start, end, 1) && start <= start0 <= end0 <= end
    ensures SameForm(t, w, start0, end0, 1 + (start0 - start))
  {
    forall p | start0 <= p <= end0 ensures w[1 + (start0 - start) + (p - start0)].sym == t[p].sym {
      assert w[1 + (p - start)].sym == t[p].sym;
    }
  }

  lemma CopyLength(copy: TokenList, t: TokenList, filter: set<string>, namepos: nat, first: nat, end0: nat, start: nat,
                   end: nat)
    requires IsCopy(copy, t, filter, namepos, first, end0, start, end)
    ensures start <= end < |t| && |copy| == end - start + 1
  {
  }

  lemma StandsAt(code: TokenList, w: TokenList, at: nat)
    requires at + |code| <= |w| && w[at..at + |code|] == code
    ensures forall i :: 0 <= i < |code| ==> w[at + i] == code[i]
  {
    forall i | 0 <= i < |code| ensures w[at + i] == code[i] {
      assert w[at..at + |code|][i] == w[at + i];
    }
  }

  lemma DefinitionMoves(code: TokenList, w: TokenList, name: string, start: nat, namepos: nat, body: nat, end: nat,
                        at: nat)
    requires Defines(code, name, start, namepos, body, end) && at + |code| < |w|
    requires forall i :: 0 <= i < |code| ==> w[at + i] == code[i]
    ensures Defines(w, name, at + start, at + namepos, at + body, at + end)
  {
    hide Shape;
    ShapeWithin(code, start, namepos, body, end);
    forall p | start <= p <= end ensures w[at + start + (p - start)].sym == code[p].sym {
      assert w[at + p] == code[p];
    }
    ShapeMoves(code, w, start, namepos, body, end, at + start);
    assert w[at + namepos] == code[namepos];
    assert at + start + (namepos - start) == at + namepos && at + start + (body - start) == at + body;
    assert at + start + (end - start) == at + end;
  }

  /** What holds of the code holds of every file in which it stands. */
  lemma CopyMoves(code: TokenList, w: TokenList, name: string, at: nat)
    requires CopyIn(code, name) && at + |code| < |w| && w[at..at + |code|] == code
    ensures CopyIn(w, name)
  {
    hide Defines, UnderGuard;
    StandsAt(code, w, at);
    var start: nat, namepos: nat, body: nat, end: nat :|
      Defines(code, UnsafeName(name), start, namepos, body, end) && GuardAround(code, name, start, end);
    var a: nat, b: nat :| UnderGuard(code, name, start, end, a, b);
    GuardMoves(code, w, name, start, end, a, b, at);
    DefinitionMoves(code, w, UnsafeName(name), start, namepos, body, end, at);
    assert GuardAround(w, name, at + start, at + end);
  }

  lemma ShapeWithin(t: TokenList, start: nat, namepos: nat, body: nat, end: nat)
    requires Shape(t, start, namepos, body, end)
    ensures start < namepos < body < end < |t| - 1 && t[namepos].sym == Ident && t[namepos + 1].sym == LPar
  {
  }

  lemma GuardMoves(code: TokenList, w: TokenList, name: string, start: nat, end: nat, a: nat, b: nat, at: nat)
    requires UnderGuard(code, name, start, end, a, b) && at + |code| < |w|
    requires forall i :: 0 <= i < |code| ==> w[at + i] == code[i]
    ensures UnderGuard(w, name, at + start, at + end, at + a, at + b)
  {
    forall i | at + a < i < at + start ensures w[i].sym == WS {
      assert w[at + (i - at)] == code[i - at];
    }
    forall i | at + end < i < at + b ensures w[i].sym == WS || w[i].sym == EOL {
      assert w[at + (i - at)] == code[i - at];
    }
    assert w[at + (b + 1)] == code[b + 1] && w[at + (b + 2)] == code[b + 2];
  }

  /** A function in whose stretch no copy ends is in the rewritten file as it was. */
  lemma FunctionStands(w: TokenList, t: TokenList, copies: seq<Copy>, filename: string, linedirs: bool, start: nat,
                       namepos: nat, body: nat, end: nat)
    requires Woven(w, t, copies, filename, linedirs) && Shape(t, start, namepos, body, end)
    requires forall c :: c in copies ==> !(start <= c.end < end)
    ensures namepos < |t| && DefinedIn(w, t[namepos].str)
  {
    hide Shape, Laid;
    ShapeWithin(t, start, namepos, body, end);
    var place :| |place| == |t| && Laid(w, t, copies, filename, linedirs, place);
    StretchStands(w, t, copies, filename, linedirs, place, start, end);
    var at := place[start];
    LastPlace(w, t, copies, filename, linedirs, place, end);
    ShapeMoves(t, w, start, namepos, body, end, at);
    assert w[at + (namepos - start)] == t[namepos];
    assert Defines(w, t[namepos].str, at, at + (namepos - start), at + (body - start), at + (end - start));
  }

  lemma LastPlace(w: TokenList, t: TokenList, copies: seq<Copy>, filename: string, linedirs: bool, place: seq<nat>,
                  p: nat)
    requires Laid(w, t, copies, filename, linedirs, place) && p + 1 < |place|
    ensures place[p] < |w| - 1
  {
    hide Gap;
    assert GapAt(w, t, copies, filename, linedirs, place, p + 1);
  }

  /** With line directives, the compiler reports every kept token of the rewritten file on the line it has in the
      original, provided that the original has no line directives and its line ends are plain. */
  lemma LinesKept(t: TokenList, copies: seq<Copy>, filename: string, n: nat, i: nat)
    requires Placed(t, copies) && t != [] && n <= |copies| && forall k :: k in t ==> PlainLine(k) && !Directive(k)
    requires After(copies, n) <= i <= (if n < |copies| then copies[n].end else |t| - 1)
    ensures Reported(Whole(PartsOf(t, copies, n, filename, true)) + t[After(copies, n)..i]) == LineAt(t, i)
    ensures Whole(PartsOf(t, copies, n, filename, true)) + t[After(copies, n)..i] + [t[i]]
      <= Whole(AllParts(t, copies, filename, true))
  {
    hide Whole, PartsOf, LineAt, Reported, PlainLine, Directive, AllParts;
    NextPart(t, copies, n);
    PartsReported(t, copies, filename, n);
    ReportedOn(Whole(PartsOf(t, copies, n, filename, true)), t, After(copies, n), i);
    PartIn(t, copies, filename, n, i);
  }

  lemma PartsReported(t: TokenList, copies: seq<Copy>, filename: string, n: nat)
    requires Placed(t, copies) && t != [] && n <= |copies|
    ensures After(copies, n) < |t|
    ensures Reported(Whole(PartsOf(t, copies, n, filename, true))) == LineAt(t, After(copies, n))
  {
    hide Whole, LineAt, Reported, LineDir, PartsOf, Originals;
    NextPart(t, copies, n);
    if n == 0 {
      Start(t, copies, filename, true);
      DirectiveNames(t, 0, filename, []);
      assert [] + LineDir(t, 0, filename) == LineDir(t, 0, filename);
    } else {
      var c := copies[n - 1];
      Grown(t, copies, n - 1, filename, true);
      var before := Whole(PartsOf(t, copies, n - 1, filename, true)) + t[After(copies, n - 1)..c.end + 1];
      var code := [NL, NL] + LineDir(t, c.start, filename) + c.code;
      assert before + (code + LineDir(t, c.end + 1, filename)) == before + code + LineDir(t, c.end + 1, filename);
      DirectiveNames(t, c.end + 1, filename, before + code);
    }
  }

  lemma {:induction false} PartIn(t: TokenList, copies: seq<Copy>, filename: string, n: nat, i: nat)
    requires Placed(t, copies) && t != [] && n <= |copies|
    requires After(copies, n) <= i <= (if n < |copies| then copies[n].end else |t| - 1)
    ensures Whole(PartsOf(t, copies, n, filename, true)) + t[After(copies, n)..i] + [t[i]]
      <= Whole(AllParts(t, copies, filename, true))
  {
    hide Whole, PartsOf, Originals, AfterFunc;
    NextPart(t, copies, n);
    var before := Whole(PartsOf(t, copies, n, filename, true));
    if n == |copies| {
      OneMore(PartsOf(t, copies, n, filename, true), Kept(t[After(copies, n)..]));
      Front(before, t, After(copies, n), i, |t|, []);
      assert t[After(copies, n)..|t|] == t[After(copies, n)..];
    } else {
      Grown(t, copies, n, filename, true);
      var c := copies[n];
      Front(before, t, After(copies, n), i, c.end + 1, AfterFunc(t, c.start, c.end, c.code, filename, true));
      PartsPrefix(t, copies, filename, n + 1);
    }
  }

  lemma Front(before: TokenList, t: TokenList, from: nat, i: nat, end: nat, rest: TokenList)
    requires from <= i < end <= |t|
    ensures before + t[from..i] + [t[i]] <= before + t[from..end] + rest
    ensures rest == [] ==> before + t[from..i] + [t[i]] <= before + t[from..end]
  {
    assert t[from..end] == t[from..i] + [t[i]] + t[i + 1..end];
  }

  lemma {:induction false} PartsPrefix(t: TokenList, copies: seq<Copy>, filename: string, n: nat)
    requires Placed(t, copies) && t != [] && n <= |copies|
    ensures Whole(PartsOf(t, copies, n, filename, true)) <= Whole(AllParts(t, copies, filename, true))
    decreases |copies| - n
  {
    hide Whole, PartsOf, Originals, AfterFunc;
    NextPart(t, copies, n);
    if n == |copies| {
      OneMore(PartsOf(t, copies, n, filename, true), Kept(t[After(copies, n)..]));
    } else {
      Grown(t, copies, n, filename, true);
      PartsPrefix(t, copies, filename, n + 1);
    }
  }

  /** The copy itself is reported one line late, since its conditional takes up the line that the directive names. */
  lemma CopyOneLate(t: TokenList, filter: set<string>, name: string, namepos: nat, first: nat, end0: nat, start: nat,
                    end: nat,
                    code: TokenList, filename: string, before: TokenList)
    requires UnsafeCode(code, t, filter, name, namepos, first, end0, start, end)
    ensures start < |t| && |code| > 1 && code[1] == Copied(t, filter, namepos, first, end0, start)
    ensures Reported(before + LineDir(t, start, filename) + code[..1]) == LineAt(t, start) + 1
  {
    hide LineAt, Reported, LineDir, Copied;
    var copy: TokenList :| Guarded(code, copy, name) && IsCopy(copy, t, filter, namepos, first, end0, start, end);
    assert code[..1] == [code[0]] && copy[start - start] == copy[0] == code[1];
    DirectiveNames(t, start, filename, before);
    ReportedStep(before + LineDir(t, start, filename), code[0]);
    IfdefLine(code[0].str);
  }

  lemma IfdefLine(s: string)
    requires s == "#ifdef USE_HPC_GUARDS\n"
    ensures !Directive(Token(PPOther, s)) && Newlines(s) == 1
  {
    assert s[..|s| - 1] == "#ifdef USE_HPC_GUARDS";
    NoNewlines("#ifdef USE_HPC_GUARDS");
    assert s[1] != LINE[1];
  }

  /** RewriteSourceFile: the file with the unsafe code of each function put right behind it. */
  method RewriteSourceFile(t: TokenList, funcs: seq<FuncSpec>, filename: string, linedirs: bool)
    returns (rewritten: TokenList)
    requires Lexed(t) && Placed(t, Copies(funcs))
    ensures rewritten == Whole(AllParts(t, Copies(funcs), filename, linedirs))
    ensures Woven(rewritten, t, Copies(funcs), filename, linedirs)
  {
    ghost var copies := Copies(funcs);
    hide Woven, LineAt, Decimal, Numbered, LineDir, Whole, Originals, AfterFunc, Placed, PartsOf;
    NoParts();
    Start(t, copies, filename, linedirs);
    rewritten := [];
    var linenos := LineNumbers(t);
    if linedirs {
      rewritten := AddLineDir(t, linenos, 0, filename, rewritten);
    }
    var next, i := 0, 0;
    while i < |funcs|
      invariant i <= |funcs| && next == After(copies, i)
      invariant rewritten == Whole(PartsOf(t, copies, i, filename, linedirs))
    {
      var f := funcs[i];
      NextPart(t, copies, i);
      Grown(t, copies, i, filename, linedirs);
      rewritten := AddFunc(t, linenos, f, next, filename, linedirs, rewritten);
      next := f.end + 1;
      i := i + 1;
    }
    NextPart(t, copies, |funcs|);
    OneMore(PartsOf(t, copies, |funcs|, filename, linedirs), Kept(t[next..]));
    rewritten := rewritten + t[next..];
    CodeInPlace(t, copies, filename, linedirs);
  }

  lemma Start(t: TokenList, copies: seq<Copy>, filename: string, linedirs: bool)
    requires Placed(t, copies) && t != []
    ensures Whole(PartsOf(t, copies, 0, filename, linedirs)) == if linedirs then LineDir(t, 0, filename) else []
  {
    hide LineDir;
    OneMore([], Inserted(LineDir(t, 0, filename)));
  }

  lemma Grown(t: TokenList, copies: seq<Copy>, i: nat, filename: string, linedirs: bool)
    requires Placed(t, copies) && i < |copies| && t != []
    ensures var c := copies[i];
      && After(copies, i) <= c.end + 1 < |t| && c.start <= c.end
      && Whole(PartsOf(t, copies, i + 1, filename, linedirs)) == Whole(PartsOf(t, copies, i, filename, linedirs))
         + t[After(copies, i)..c.end + 1] + AfterFunc(t, c.start, c.end, c.code, filename, linedirs)
  {
    NextPart(t, copies, i);
    PartsStep(t, copies, i, filename, linedirs);
    hide Whole, AfterFunc, LineDir, Originals, PartsOf, Placed, After;
    var c, parts := copies[i], PartsOf(t, copies, i, filename, linedirs);
    var kept := Kept(t[After(copies, i)..c.end + 1]);
    OneMore(parts, kept);
    OneMore(parts + [kept], Inserted(AfterFunc(t, c.start, c.end, c.code, filename, linedirs)));
  }

  /** The tokens up to the end of a function, and its insertion. */
  method AddFunc(t: TokenList, linenos: seq<nat>, f: FuncSpec, next: nat, filename: string, linedirs: bool,
                 done: TokenList)
    returns (rewritten: TokenList)
    requires Numbered(t, linenos) && next <= f.end + 1 < |t| && f.start <= f.end
    ensures rewritten == done + t[next..f.end + 1] + AfterFunc(t, f.start, f.end, f.unsafeCode, filename, linedirs)
  {
    hide LineDir, Numbered;
    rewritten := done + t[next..f.end + 1];
    rewritten := rewritten + [NL] + [NL];
    if linedirs {
      rewritten := AddLineDir(t, linenos, f.start, filename, rewritten);
    }
    rewritten := rewritten + f.unsafeCode;
    if linedirs {
      rewritten := AddLineDir(t, linenos, f.end + 1, filename, rewritten);
    }
  }

  // ---------- one file ----------

  /** The second list differs from the first in the names at some tokens, all of them names of the set. */
  ghost predicate Updated(t: TokenList, t': TokenList, filter: set<string>) {
    |t'| == |t| && forall p :: 0 <= p < |t| ==> t'[p].sym == t[p].sym && (t'[p].str == t[p].str || t[p].str in filter)
  }

  lemma {:induction false} SameDepth(t: TokenList, t': TokenList, lo: nat, hi: nat)
    requires |t'| == |t| && lo <= hi <= |t| && forall p :: 0 <= p < |t| ==> t'[p].sym == t[p].sym
    ensures Depth(t', lo, hi) == Depth(t, lo, hi)
    decreases hi
  {
    if lo < hi {
      SameDepth(t, t', lo, hi - 1);
    }
  }

  lemma SameShape(t: TokenList, t': TokenList, filter: set<string>, start: nat, namepos: nat, body: nat, end: nat)
    requires Updated(t, t', filter) && Shape(t, start, namepos, body, end)
    ensures Shape(t', start, namepos, body, end)
  {
    hide Depth;
    SameDepth(t, t', body, end + 1);
    forall i: nat | body < i <= end ensures OpenAt(t', body, i) {
      assert OpenAt(t, body, i);
      SameDepth(t, t', body, i);
    }
  }

  /** Positions of all calls, recorded before the unsafe sections were updated, still serve afterwards. */
  lemma CallsStillKnown(t: TokenList, t': TokenList, calls: seq<nat>, names: set<string>, filter: set<string>,
                         first: nat, end: nat)
    requires Updated(t, t', filter) && filter <= names
    requires forall p: nat :: p in calls <==> CallAt(names, t, first, end, p)
    ensures CallsKnown(t', calls, filter, first, end)
  {
    forall p: nat ensures CallForm(t', end, p) <==> CallForm(t, end, p) {
      SameCallForm(t, t', end, p);
      SameCallForm(t', t, end, p);
    }
    hide CallForm;
    forall p: nat | p < |t'| ensures (p in calls && t'[p].str in filter) <==> CallAt(filter, t', first, end, p) {
      assert t'[p].str == t[p].str || t[p].str in filter;
    }
    forall p | p in calls ensures p < |t'| && first <= p <= end {
      InRange(t, end, p);
    }
  }

  lemma InRange(t: TokenList, end: nat, p: nat)
    requires CallForm(t, end, p)
    ensures p <= end < |t|
  {
  }

  lemma SameCallForm(t: TokenList, t': TokenList, end: nat, p: nat)
    requires |t'| == |t| && (forall p :: 0 <= p < |t| ==> t'[p].sym == t[p].sym)
    ensures CallForm(t, end, p) ==> CallForm(t', end, p)
  {
  }

  /** FindCalls on every function of the file. */
  method RecordCalls(funcs: seq<FuncSpec>, t: TokenList, names: set<string>)
    requires Lexed(t) && InOrder(funcs) && forall f :: f in funcs ==> f.Found(t)
    modifies funcs
    ensures InOrder(funcs) && forall f :: f in funcs ==> f.Found(t) && f.Recorded(t, names)
    ensures forall f :: f in funcs ==> f.start == old(f.start) && f.end == old(f.end)
  {
    hide Shape, CallAt, IsBodyStart, Lexed;
    var i := 0;
    while i < |funcs|
      invariant i <= |funcs|
      invariant forall f :: f in funcs ==> f.start == old(f.start) && f.end == old(f.end) && f.Found(t)
      invariant forall j :: 0 <= j < i ==> funcs[j].Recorded(t, names)
    {
      var f := funcs[i];
      RecordFunc(f, t, names);
      i := i + 1;
    }
  }

  method RecordFunc(f: FuncSpec, t: TokenList, names: set<string>)
    requires Lexed(t) && f.Found(t)
    modifies f
    ensures f.Found(t) && f.Recorded(t, names) && f.start == old(f.start) && f.end == old(f.end)
  {
    var calls, first := FindCalls(names, t, f.start, f.end, true);
    f.callpositions, f.first := calls, first;
  }

  lemma ReadyAfterUpdate(f: FuncSpec, t: TokenList, t': TokenList, names: set<string>, filter: set<string>)
    requires f.Found(t) && f.Recorded(t, names) && Updated(t, t', filter) && filter <= names
    ensures f.Ready(t', filter)
  {
    hide CallAt, CallsKnown, Shape;
    SameShape(t, t', filter, f.start, f.namepos, f.body, f.end);
    CallsStillKnown(t, t', f.callpositions, names, filter, f.first, f.end);
  }

  ghost predicate Distinct(funcs: seq<FuncSpec>) {
    forall i, j :: 0 <= i < j < |funcs| ==> funcs[i] != funcs[j]
  }

  /** Where the functions of a file are: the next one starts at a keyword after the end of the one before. */
  datatype Span = Span(start: nat, end: nat, next: nat)

  ghost predicate Spread(t: TokenList, spans: seq<Span>) {
    && (forall i :: 0 <= i < |spans| ==> SpanOk(t, spans[i]))
    && (forall i, j :: 0 <= i < j < |spans| ==> spans[i].next <= spans[j].start)
  }

  ghost predicate SpanOk(t: TokenList, s: Span) {
    s.start <= s.end < s.next < |t| && t[s.next].sym in {Static, ExportInline, EOF}
  }

  ghost predicate Waiting(f: FuncSpec, t: TokenList, used: set<string>, s: Span)
    reads f
  {
    f.Ready(t, used) && f.start == s.start && f.end == s.end
  }

  ghost predicate Finished(f: FuncSpec, t: TokenList, used: set<string>, s: Span)
    reads f
  {
    f.Done(t, used) && f.start <= s.start && s.end <= f.end < s.next
  }

  /** GenUnsafeCode for a function of the file. The next one starts with a keyword, so the blanks taken in end
      before it. */
  method MakeUnsafe(f: FuncSpec, t: TokenList, used: set<string>, ghost s: Span)
    requires Lexed(t) && Waiting(f, t, used, s) && SpanOk(t, s)
    modifies f
    ensures Finished(f, t, used, s)
  {
    hide CallAt, UnsafeCode, CallsKnown, Shape;
    GenUnsafeCode(f, t, used, f.first);
    EndsBefore(t, s, f.start, f.end);
  }

  lemma EndsBefore(t: TokenList, s: Span, start: nat, end: nat)
    requires SpanOk(t, s) && Widened(t, s.start, s.end, start, end)
    ensures start <= s.start && s.end <= end < s.next
  {
  }

  /** GenUnsafeCode for the functions of one file that are in use and not skipped. */
  method GenAll(funcs: seq<FuncSpec>, t: TokenList, used: set<string>, skip: set<string>, ghost spans: seq<Span>)
    returns (selected: seq<FuncSpec>)
    requires Lexed(t) && Distinct(funcs) && |spans| == |funcs| && Spread(t, spans)
    requires forall i :: 0 <= i < |funcs| ==> Waiting(funcs[i], t, used, spans[i])
    modifies funcs
    ensures forall f :: f in selected <==> f in funcs && f.name in used && f.name !in skip
    ensures Placed(t, Copies(selected)) && forall f :: f in selected ==> f.Done(t, used)
  {
    hide Lexed, SpanOk, Waiting, Finished;
    selected := [];
    ghost var index: seq<nat> := [];
    var i := 0;
    while i < |funcs|
      invariant i <= |funcs|
      invariant forall j :: i <= j < |funcs| ==> Waiting(funcs[j], t, used, spans[j])
      invariant forall f :: f in selected <==> f in funcs[..i] && f.name in used && f.name !in skip
      invariant Indexed(selected, funcs, index, i)
      invariant forall k :: 0 <= k < |index| ==> Finished(selected[k], t, used, spans[index[k]])
    {
      var f := funcs[i];
      assert funcs[..i + 1] == funcs[..i] + [f];
      if f.name in used && f.name !in skip {
        MakeUnsafe(f, t, used, spans[i]);
        selected, index := selected + [f], index + [i];
      }
      i := i + 1;
    }
    assert funcs[..i] == funcs;
    AllPlaced(selected, funcs, index, t, used, spans);
  }

  /** The list picks the functions at ascending indices below `n`. */
  ghost predicate Indexed(selected: seq<FuncSpec>, funcs: seq<FuncSpec>, index: seq<nat>, n: nat) {
    && |index| == |selected|
      && (forall k :: 0 <= k < |index| ==> index[k] < n && index[k] < |funcs| && selected[k] == funcs[index[k]])
    && (forall k, l :: 0 <= k < l < |index| ==> index[k] < index[l])
  }

  lemma AllPlaced(selected: seq<FuncSpec>, funcs: seq<FuncSpec>, index: seq<nat>, t: TokenList, used: set<string>,
                  spans: seq<Span>)
    requires |spans| == |funcs| && Spread(t, spans) && Indexed(selected, funcs, index, |funcs|)
    requires forall k :: 0 <= k < |index| ==> Finished(selected[k], t, used, spans[index[k]])
    ensures Placed(t, Copies(selected)) && forall f :: f in selected ==> f.Done(t, used)
  {
    hide UnsafeCode, Shape, IsBodyStart;
    forall i, j | 0 <= i < j < |selected| ensures selected[i].end < selected[j].end {
      assert Finished(selected[i], t, used, spans[index[i]]) && Finished(selected[j], t, used, spans[index[j]]);
    }
  }

  /** Functions found in one file: distinct, and spread over the file. */
  lemma FoundSpread(funcs: seq<FuncSpec>, t: TokenList) returns (spans: seq<Span>)
    requires Lexed(t) && InOrder(funcs) && forall f :: f in funcs ==> f.Found(t)
    ensures Distinct(funcs) && |spans| == |funcs| && Spread(t, spans)
    ensures forall i :: 0 <= i < |funcs| ==> spans[i].start == funcs[i].start && spans[i].end == funcs[i].end
  {
    hide Lexed, FuncSpec.Found;
    LastIsEOF(t);
    forall i | 0 <= i < |funcs| ensures funcs[i].start <= funcs[i].end < |t| - 1
      && (t[funcs[i].start].sym == Static || t[funcs[i].start].sym == ExportInline)
    {
      FoundStretch(funcs[i], t);
    }
    spans := [];
    while |spans| < |funcs|
      invariant |spans| <= |funcs| && Spread(t, spans)
      invariant forall i :: 0 <= i < |spans| ==> spans[i].start == funcs[i].start && spans[i].end == funcs[i].end
      invariant forall i, j :: 0 <= i < |spans| <= j < |funcs| ==> spans[i].next <= funcs[j].start
    {
      var f, k := funcs[|spans|], |spans| + 1;
      var next := if k < |funcs| then funcs[k].start else |t| - 1;
      assert k < |funcs| ==> f.end < funcs[k].start;
      spans := spans + [Span(f.start, f.end, next)];
    }
  }

  lemma FoundStretch(f: FuncSpec, t: TokenList)
    requires f.Found(t)
    ensures f.start <= f.end < |t| - 1 && (t[f.start].sym == Static || t[f.start].sym == ExportInline)
  {
  }

  lemma LastIsEOF(t: TokenList)
    requires Lexed(t)
    ensures t != [] && t[|t| - 1].sym == EOF
  {
  }

  lemma UpdatedBy(t: TokenList, t': TokenList, calls: seq<nat>, filter: set<string>)
    requires |t'| == |t| && forall p: nat :: p < |t| ==> t'[p] == if p in calls then Marked(t[p], filter) else t[p]
    requires Lexed(t)
    ensures Updated(t, t', filter) && Lexed(t')
  {
  }

  /** What becomes of one file and its inline functions: their calls are recorded, the unsafe sections are updated,
      copies of the functions in use are made, and the file is rewritten with them. */
  method ProcessFile(t: TokenList, funcs: seq<FuncSpec>, names: set<string>, used: set<string>, skip: set<string>,
                     unsafeCalls: seq<nat>, filename: string, linedirs: bool)
    returns (selected: seq<FuncSpec>, t': TokenList, rewritten: TokenList)
    requires Lexed(t) && InOrder(funcs) && forall f :: f in funcs ==> f.Found(t)
    requires used <= names && forall p :: p in unsafeCalls ==> p < |t|
    modifies funcs
    ensures |t'| == |t| && forall p: nat :: p < |t| ==> t'[p] == if p in unsafeCalls then Marked(t[p], used) else t[p]
    ensures Placed(t', Copies(selected)) && t' != []
    ensures rewritten == Whole(AllParts(t', Copies(selected), filename, linedirs))
    ensures Woven(rewritten, t', Copies(selected), filename, linedirs)
    ensures Originals(AllParts(t', Copies(selected), filename, linedirs)) == t'
    ensures forall f :: f in selected <==> f in funcs && f.name in used && f.name !in skip
    ensures forall f :: f in selected ==> f.Done(t', used)
  {
    hide Woven, Whole, Originals, AllParts, Shape, UnsafeCode, CallsKnown, Closes, Waiting, Spread;
    RecordCalls(funcs, t, names);
    ghost var spans := FoundSpread(funcs, t);
    var changed;
    t', changed := UpdateUnsafeSection(t, unsafeCalls, used);
    UpdatedBy(t, t', unsafeCalls, used);
    SpreadStill(t, t', spans, used);
    forall i | 0 <= i < |funcs| ensures Waiting(funcs[i], t', used, spans[i]) {
      WaitingAfter(funcs[i], t, t', names, used, spans[i]);
    }
    selected := GenAll(funcs, t', used, skip, spans);
    rewritten := RewriteSourceFile(t', selected, filename, linedirs);
    NothingLost(t', Copies(selected), filename, linedirs);
  }

  lemma SpreadStill(t: TokenList, t': TokenList, spans: seq<Span>, filter: set<string>)
    requires Spread(t, spans) && Updated(t, t', filter)
    ensures Spread(t', spans)
  {
  }

  lemma WaitingAfter(f: FuncSpec, t: TokenList, t': TokenList, names: set<string>, used: set<string>, s: Span)
    requires f.Found(t) && f.Recorded(t, names) && Updated(t, t', used) && used <= names
    requires s.start == f.start && s.end == f.end
    ensures Waiting(f, t', used, s)
  {
    ReadyAfterUpdate(f, t, t', names, used);
  }
}
