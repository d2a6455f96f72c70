/** Token lists and the scanning helpers of src/analyzer.cc. */
module Tokens {
  /** The symbols the analysis looks at; all others count as Other. */
  datatype Symbol = Ident | LPar | RPar | LBrace | RBrace | WS | EOL | Comment | Static | Inline | ExportInline
                  | PPIf | PPElse | PPElif | PPEndif | PPOther | Other | EOF

  datatype Token = Token(sym: Symbol, str: string)

  type TokenList = seq<Token>

  /** A lexed file: exactly the last token is the end marker. */
  ghost predicate Lexed(t: TokenList) {
    t != [] && forall i :: 0 <= i < |t| ==> (t[i].sym == EOF <==> i == |t| - 1)
  }

  predicate Blank(s: Symbol) {
    s == WS || s == EOL || s == Comment
  }

  /** Skip(tokens, pos, SymsWS): the first position from `pos` on that is not blank. */
  method SkipBlank(t: TokenList, pos: nat) returns (p: nat)
    requires Lexed(t) && pos < |t|
    ensures pos <= p < |t| && t[p].sym !in {WS, EOL, Comment}
    ensures forall i :: pos <= i < p ==> t[i].sym in {WS, EOL, Comment}
  {
    p := pos;
    while Blank(t[p].sym)
      invariant pos <= p < |t| && forall i :: pos <= i < p ==> Blank(t[i].sym)
      decreases |t| - p
    {
      p := p + 1;
    }
  }

  /** SkipUntil(tokens, pos, BIT(sym)): the first `sym` from `pos` on, or the end marker. */
  method SkipUntil(t: TokenList, pos: nat, sym: Symbol) returns (p: nat)
    requires Lexed(t) && pos < |t|
    ensures pos <= p < |t| && (t[p].sym == sym || t[p].sym == EOF)
    ensures forall i :: pos <= i < p ==> t[i].sym != sym && t[i].sym != EOF
  {
    p := pos;
    while t[p].sym != sym && t[p].sym != EOF
      invariant pos <= p < |t| && forall i :: pos <= i < p ==> t[i].sym != sym && t[i].sym != EOF
      decreases |t| - p
    {
      p := p + 1;
    }
  }

  // ---------- calls ----------

  /** An identifier at `p` that an opening parenthesis follows, with only blanks between, all up to `end`. */
  ghost predicate CallForm(t: TokenList, end: nat, p: nat) {
    && p <= end < |t| && t[p].sym == Ident
    && exists q :: p < q <= end && t[q].sym == LPar && forall i :: p < i < q ==> Blank(t[i].sym)
  }

  lemma NextIsCall(t: TokenList, end: nat, p: nat)
    requires p + 1 <= end < |t| && t[p].sym == Ident && t[p + 1].sym == LPar
    ensures CallForm(t, end, p)
  {
  }

  ghost predicate CallAt(names: set<string>, t: TokenList, first: nat, end: nat, p: nat) {
    first <= p && CallForm(t, end, p) && t[p].str in names
  }

  lemma NotACall(t: TokenList, end: nat, p: nat, q: nat)
    requires p < q < |t| && !Blank(t[q].sym) && forall i :: p < i < q ==> Blank(t[i].sym)
    requires q > end || t[q].sym != LPar
    ensures !CallForm(t, end, p)
  {
  }

  ghost predicate Ascending(s: seq<nat>) {
    forall i, j :: 0 <= i < j < |s| ==> s[i] < s[j]
  }

  /** FindCalls: the positions of all calls to the given names between `start` and `end`; for a function,
      only from its opening brace on. */
  method FindCalls(names: set<string>, t: TokenList, start: nat, end: nat, func: bool)
    returns (calls: seq<nat>, ghost first: nat)
    requires Lexed(t) && start <= end < |t| - 1
    ensures first >= start && (func ==> IsBodyStart(t, start, first)) && (!func ==> first == start)
    ensures Ascending(calls) && forall p: nat :: p in calls <==> CallAt(names, t, first, end, p)
  {
    var pos := start;
    if func {
      pos := SkipUntil(t, pos, LBrace);
    }
    first := pos;
    calls := [];
    while pos <= end
      invariant first <= pos < |t|
      invariant Ascending(calls) && forall i :: 0 <= i < |calls| ==> calls[i] < pos
      invariant forall p: nat :: p in calls ==> CallAt(names, t, first, end, p)
      invariant forall p: nat :: CallAt(names, t, first, end, p) && p < pos ==> p in calls
      decreases |t| - pos
    {
      var id := SkipUntil(t, pos, Ident);
      assert forall i :: 0 <= i < |calls| ==> calls[i] < id;
      if id > end {
        pos := id;
        break;
      }
      pos := id + 1;
      if t[id].str !in names {
        continue;
      }
      var next := SkipBlank(t, pos);
      if next > end || t[next].sym != LPar {
        NotACall(t, end, id, next);
      }
      pos := next;
      if pos > end {
        break;
      }
      if t[next].sym == LPar {
        assert CallForm(t, end, id);
        calls := calls + [id];
      }
    }
  }

  /** The first opening brace from `start` on, or the end marker. */
  ghost predicate IsBodyStart(t: TokenList, start: nat, first: nat) {
    && start <= first < |t| && (t[first].sym == LBrace || t[first].sym == EOF)
    && forall i :: start <= i < first ==> t[i].sym != LBrace && t[i].sym != EOF
  }
}
