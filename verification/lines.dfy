/** Line numbers of tokens, and the lines that #line directives make a compiler report (src/rewrite.cc). */
module Lines {
  import opened Tokens

  function Newlines(s: string): nat {
    if s == [] then 0 else Newlines(s[..|s| - 1]) + (if s[|s| - 1] == '\n' then 1 else 0)
  }

  lemma {:induction false} NewlinesAppend(a: string, b: string)
    ensures Newlines(a + b) == Newlines(a) + Newlines(b)
  {
    if b == "" {
      assert a + b == a;
    } else {
      NewlinesAppend(a, b[..|b| - 1]);
      assert (a + b)[..|a + b| - 1] == a + b[..|b| - 1];
    }
  }

  lemma {:induction false} NoNewlines(s: string)
    requires '\n' !in s
    ensures Newlines(s) == 0
  {
    if s != "" {
      NoNewlines(s[..|s| - 1]);
    }
  }

  /** The number of the line that starts or goes on at token p: line ends and the newlines inside comments count. */
  function LineAt(t: TokenList, p: nat): nat
    requires p <= |t|
  {
    if p == 0 then 1
    else
      var k := t[p - 1];
      LineAt(t, p - 1) + (if k.sym == EOL then 1 else if k.sym == Comment then Newlines(k.str) else 0)
  }

  ghost predicate Numbered(t: TokenList, linenos: seq<nat>) {
    |linenos| == |t| && forall i :: 0 <= i < |t| ==> linenos[i] == LineAt(t, i)
  }

  method LineNumbers(t: TokenList) returns (linenos: seq<nat>)
    ensures Numbered(t, linenos)
  {
    linenos := [];
    var lineno := 1;
    var i := 0;
    while i < |t|
      invariant i <= |t| && |linenos| == i && lineno == LineAt(t, i)
      invariant forall j :: 0 <= j < i ==> linenos[j] == LineAt(t, j)
    {
      linenos := linenos + [lineno];
      match t[i].sym {
        case EOL => lineno := lineno + 1;
        case Comment => lineno := lineno + Newlines(t[i].str);
        case _ =>
      }
      i := i + 1;
    }
  }

  // ---------- lines of the text ----------

  ghost function Text(t: TokenList): string {
    if t == [] then "" else Text(t[..|t| - 1]) + t[|t| - 1].str
  }

  /** Outside comments, newlines stand in line ends only, one in each. */
  predicate PlainLine(k: Token) {
    k.sym == Comment || Newlines(k.str) == if k.sym == EOL then 1 else 0
  }

  lemma TextStep(t: TokenList, p: nat)
    requires p < |t|
    ensures Newlines(Text(t[..p + 1])) == Newlines(Text(t[..p])) + Newlines(t[p].str)
  {
    assert t[..p + 1][..p] == t[..p];
    NewlinesAppend(Text(t[..p]), t[p].str);
  }

  lemma {:induction false} LineOfText(t: TokenList, p: nat)
    requires p <= |t| && forall i :: 0 <= i < p ==> PlainLine(t[i])
    ensures LineAt(t, p) == 1 + Newlines(Text(t[..p]))
  {
    if p > 0 {
      hide Newlines, Text;
      LineOfText(t, p - 1);
      TextStep(t, p - 1);
    } else {
      assert Text(t[..0]) == "" && Newlines("") == 0;
    }
  }

  /** The line number of every token is one more than the newlines in the text before it, just when line ends hold one
      newline each and the other tokens outside comments none. */
  lemma LinesOfText(t: TokenList)
    ensures (forall p: nat :: p <= |t| ==> LineAt(t, p) == 1 + Newlines(Text(t[..p])))
      <==> (forall k :: k in t ==> PlainLine(k))
  {
    hide Newlines, Text;
    if forall k :: k in t ==> PlainLine(k) {
      forall p: nat | p <= |t| ensures LineAt(t, p) == 1 + Newlines(Text(t[..p])) {
        LineOfText(t, p);
      }
    } else if forall p: nat :: p <= |t| ==> LineAt(t, p) == 1 + Newlines(Text(t[..p])) {
      forall i | 0 <= i < |t| ensures PlainLine(t[i]) {
        TextStep(t, i);
        assert LineAt(t, i + 1) == 1 + Newlines(Text(t[..i + 1])) && LineAt(t, i) == 1 + Newlines(Text(t[..i]));
      }
    }
  }

  /** A line end that is a lone carriage return counts although the text has no newline. */
  lemma LoneReturn(t: TokenList)
    requires t == [Token(EOL, "\r"), Token(EOF, "")]
    ensures LineAt(t, 1) == 2 && Newlines(Text(t[..1])) == 0
  {
    hide Newlines;
    TextStep(t, 0);
    NoNewlines(t[0].str);
    NoNewlines("");
    assert t[..0] == [];
    assert LineAt(t, 0) == 1;
  }

  // ---------- numbers in directives ----------

  function Digit(d: nat): char
    requires d < 10
  {
    ('0' as int + d) as char
  }

  function Decimal(n: nat): string {
    (if n < 10 then "" else Decimal(n / 10)) + [Digit(n % 10)]
  }

  /** The number that the leading digits of a string stand for, after the digits already read. */
  function Number(s: string, read: nat): nat {
    if s != "" && '0' <= s[0] <= '9' then Number(s[1..], 10 * read + (s[0] as int - '0' as int)) else read
  }

  /** The digits of a number, read back in front of anything but a digit. */
  lemma {:induction false} DecimalRead(n: nat, rest: string)
    requires rest == "" || !('0' <= rest[0] <= '9')
    ensures Number(Decimal(n) + rest, 0) == n
  {
    DigitsRead(n, rest);
  }

  /** The string is a number in decimal digits, and stands for n. */
  ghost predicate IsNumber(s: string, n: nat) {
    (forall d :: d in s ==> '0' <= d <= '9') && Number(s, 0) == n
  }

  lemma DecimalDigits(n: nat)
    ensures IsNumber(Decimal(n), n)
  {
    DecimalRead(n, "");
    assert Decimal(n) + "" == Decimal(n);
    DigitsOnly(n);
  }

  lemma {:induction false} DigitsOnly(n: nat)
    ensures forall d :: d in Decimal(n) ==> '0' <= d <= '9'
  {
    if n >= 10 {
      DigitsOnly(n / 10);
    }
  }

  /** What follows the digits of n is read as if n had been read before. */
  lemma {:induction false} DigitsRead(n: nat, rest: string)
    ensures Number(Decimal(n) + rest, 0) == Number(rest, n)
  {
    var d := [Digit(n % 10)];
    assert (d + rest)[1..] == rest;
    if n >= 10 {
      DigitsRead(n / 10, d + rest);
      assert Decimal(n) + rest == Decimal(n / 10) + (d + rest);
    } else {
      assert Decimal(n) + rest == d + rest;
    }
  }

  // ---------- the lines a compiler reports ----------

  const LINE := "#line "

  predicate Directive(k: Token) {
    k.sym == PPOther && LINE <= k.str
  }

  /** The line after token k, when k starts on line `line`. */
  function Onward(k: Token, line: nat): nat {
    if Directive(k) then Number(k.str[|LINE|..], 0) else line + Newlines(k.str)
  }

  /** The line reached after reading the tokens from the start of the file. */
  function Reported(t: TokenList): nat {
    if t == [] then 1 else Onward(t[|t| - 1], Reported(t[..|t| - 1]))
  }

  lemma ReportedStep(t: TokenList, k: Token)
    ensures Reported(t + [k]) == Onward(k, Reported(t))
  {
    assert (t + [k])[..|t|] == t;
  }

  /** Reading on from a point whose line is right, every line stays right. */
  lemma {:induction false} ReportedOn(before: TokenList, t: TokenList, from: nat, i: nat)
    requires from <= i <= |t| && Reported(before) == LineAt(t, from)
    requires forall k :: k in t ==> PlainLine(k) && !Directive(k)
    ensures Reported(before + t[from..i]) == LineAt(t, i)
  {
    if from == i {
      assert before + t[from..i] == before;
    } else {
      hide Reported, Newlines, Number, Directive;
      ReportedOn(before, t, from, i - 1);
      LongerSlice(before, t, from, i - 1);
      ReportedStep(before + t[from..i - 1], t[i - 1]);
      OneLineOn(t, i - 1);
    }
  }

  lemma OneLineOn(t: TokenList, p: nat)
    requires p < |t| && PlainLine(t[p]) && !Directive(t[p])
    ensures Onward(t[p], LineAt(t, p)) == LineAt(t, p + 1)
  {
    hide Newlines, Number, Directive;
  }

  lemma LongerSlice(before: TokenList, t: TokenList, from: nat, i: nat)
    requires from <= i < |t|
    ensures before + t[from..i + 1] == before + t[from..i] + [t[i]]
  {
  }
}
