/** Bracket search of the `mathexpr` parser: the two searches undo each other, and the operator search
    splits a balanced string at the last operator outside all brackets. */
module Brackets {
  import opened Devs
  import opened Expr

  function Weight(c: char): int {
    if c == '(' then 1 else if c == ')' then -1 else 0
  }

  /** Opening minus closing brackets in s[start..end]. */
  function Depth(s: string, start: nat, end: nat): int
    requires start <= end <= |s|
    decreases end
  {
    if start == end then 0 else Depth(s, start, end - 1) + Weight(s[end - 1])
  }

  lemma {:induction false} DepthSplits(s: string, start: nat, mid: nat, end: nat)
    requires start <= mid <= end <= |s|
    ensures Depth(s, start, end) == Depth(s, start, mid) + Depth(s, mid, end)
    decreases end
  {
    if mid < end {
      DepthSplits(s, start, mid, end - 1);
    }
  }

  // ----- the searches -----

  /** i closes the bracket before position n + 1. */
  predicate Closes(s: string, n: nat, i: nat)
    requires n < i < |s|
  {
    Depth(s, n + 1, i + 1) == -1
  }

  /** i opens the bracket that is still open before position n. */
  predicate Opens(s: string, n: nat, i: nat)
    requires i < n <= |s|
  {
    Depth(s, i, n) == 1
  }

  /** m is the first closing position after n, or -1 if there is none. */
  ghost predicate FoundByOpen(s: string, n: nat, m: int) {
    && (m == -1 || (n < m < |s| && Closes(s, n, m)))
    && forall i :: n < i < (if m == -1 then |s| else m) ==> !Closes(s, n, i)
  }

  /** m is the last opening position before n, or -1 if there is none. */
  ghost predicate FoundByClose(s: string, n: nat, m: int)
    requires n <= |s|
  {
    && (m == -1 || (0 <= m < n && Opens(s, n, m)))
    && forall i :: m < i < n ==> !Opens(s, n, i)
  }

  method SearchCorOpenbracket(s: string, n: nat) returns (m: int)
    ensures FoundByOpen(s, n, m)
  {
    if n >= |s| - 1 {
      return -1;
    }
    var i, c := n + 1, 1;
    while i < |s|
      invariant n < i <= |s|
      invariant c == 1 + Depth(s, n + 1, i)
      invariant forall j :: n < j < i ==> !Closes(s, n, j)
    {
      if s[i] == '(' {
        c := c + 1;
      } else if s[i] == ')' {
        c := c - 1;
      }
      if c == 0 {
        return i;
      }
      i := i + 1;
    }
    m := -1;
  }

  method SearchCorClosebracket(s: string, n: nat) returns (m: int)
    requires n <= |s|
    ensures FoundByClose(s, n, m)
  {
    if n < 1 {
      return -1;
    }
    var i, c := n - 1, 1;
    while i >= 0
      invariant -1 <= i < n
      invariant c == 1 - Depth(s, i + 1, n)
      invariant forall j :: i < j < n ==> !Opens(s, n, j)
    {
      DepthSplits(s, i, i + 1, n);
      if s[i] == ')' {
        c := c + 1;
      } else if s[i] == '(' {
        c := c - 1;
      }
      if c == 0 {
        return i;
      }
      i := i - 1;
    }
    m := -1;
  }

  // ----- the searches undo each other -----

  /** Before the first closing position the depth has not gone below zero. */
  lemma {:induction false} NotYetClosed(s: string, n: nat, i: nat)
    requires n < i <= |s| && forall j :: n < j < i ==> !Closes(s, n, j)
    ensures Depth(s, n + 1, i) >= 0
    decreases i
  {
    if i > n + 1 {
      NotYetClosed(s, n, i - 1);
      assert !Closes(s, n, i - 1);
    }
  }

  /** After the last opening position the depth up to n has not risen above zero. */
  lemma {:induction false} NotYetOpened(s: string, n: nat, i: nat)
    requires i <= n <= |s| && forall j :: i <= j < n ==> !Opens(s, n, j)
    ensures Depth(s, i, n) <= 0
    decreases n - i
  {
    if i < n {
      NotYetOpened(s, n, i + 1);
      DepthSplits(s, i, i + 1, n);
      assert !Opens(s, n, i);
    }
  }

  /** The bracket found for an opening bracket is a closing one, and the other search leads back from it. */
  lemma CloseUndoesOpen(s: string, n: nat, m: nat)
    requires n < m < |s| && s[n] == '(' && Closes(s, n, m) && forall i :: n < i < m ==> !Closes(s, n, i)
    ensures s[m] == ')' && Opens(s, m, n) && forall i :: n < i < m ==> !Opens(s, m, i)
  {
    NotYetClosed(s, n, m);
    DepthSplits(s, n, n + 1, m);
    forall i | n < i < m
      ensures !Opens(s, m, i)
    {
      NotYetClosed(s, n, i);
      DepthSplits(s, n + 1, i, m);
    }
  }

  lemma OpenUndoesClose(s: string, m: nat, n: nat)
    requires n < m < |s| && s[m] == ')' && Opens(s, m, n) && forall i :: n < i < m ==> !Opens(s, m, i)
    ensures s[n] == '(' && Closes(s, n, m) && forall i :: n < i < m ==> !Closes(s, n, i)
  {
    NotYetOpened(s, m, n + 1);
    DepthSplits(s, n, n + 1, m);
    forall i | n < i < m
      ensures !Closes(s, n, i)
    {
      NotYetOpened(s, m, i + 1);
      DepthSplits(s, n + 1, i + 1, m);
    }
  }

  /** From an opening bracket to its closing one and back: each search inverts the other. */
  lemma SearchesAreInverse(s: string, n: nat, m: nat)
    requires n < m < |s|
    ensures s[n] == '(' && FoundByOpen(s, n, m) <==> s[m] == ')' && FoundByClose(s, m, n)
  {
    if s[n] == '(' && FoundByOpen(s, n, m) {
      CloseUndoesOpen(s, n, m);
    }
    if s[m] == ')' && FoundByClose(s, m, n) {
      OpenUndoesClose(s, m, n);
    }
  }

  // ----- the operator search -----

  predicate Balanced(s: string) {
    Depth(s, 0, |s|) == 0 && forall i :: 0 <= i <= |s| ==> Depth(s, 0, i) >= 0
  }

  function Symbol(op: BinaryOp): (c: char)
    ensures Weight(c) == 0
  {
    match op
    case Juxt => ','
    case Add => '+'
    case Sub => '-'
    case Mult => '*'
    case Div => '/'
    case Pow => '^'
    case NthRoot => '#'
    case E10 => 'E'
  }

  /** Which operator a character stands for. */
  predicate StandsFor(c: char, op: BinaryOp) {
    && (c == ',' <==> op == Juxt) && (c == '+' <==> op == Add) && (c == '-' <==> op == Sub) && (c == '*' <==> op == Mult)
    && (c == '/' <==> op == Div) && (c == '^' <==> op == Pow) && (c == '#' <==> op == NthRoot) && (c == 'E' <==> op == E10)
  }

  lemma SymbolStandsFor(op: BinaryOp)
    ensures StandsFor(Symbol(op), op)
  {
  }

  /** A minus sign counts as a subtraction only after a closing bracket. */
  predicate IsOperator(s: string, op: BinaryOp, i: nat)
    requires i < |s|
  {
    s[i] == Symbol(op) && (op == Sub ==> i > 0 && s[i - 1] == ')')
  }

  predicate Outside(s: string, i: nat)
    requires i <= |s|
  {
    Depth(s, 0, i) == 0
  }

  /** A bracketed group that ends outside all brackets starts outside them and contains no outside position. */
  lemma GroupIsInside(s: string, n: nat, m: nat)
    requires m < n < |s| && s[n] == ')' && Outside(s, n + 1)
    requires Opens(s, n, m) && forall i :: m < i < n ==> !Opens(s, n, i)
    ensures s[m] == '(' && Outside(s, m) && forall i :: m < i <= n ==> !Outside(s, i)
  {
    NotYetOpened(s, n, m + 1);
    DepthSplits(s, m, m + 1, n);
    DepthSplits(s, 0, m, n);
    forall i | m < i <= n
      ensures !Outside(s, i)
    {
      NotYetOpened(s, n, i);
      DepthSplits(s, 0, i, n);
    }
  }

  /** On a balanced string: the last operator outside all brackets, or -1 if there is none. For the operators
      without a symbol of their own the answer is -1. */
  method SearchOperator(s: string, op: Option<BinaryOp>) returns (r: int)
    ensures r == -1 || 0 <= r < |s|
    ensures r != -1 ==> op.Some? && StandsFor(s[r], op.value) && IsOperator(s, op.value, r)
    ensures r != -1 && Balanced(s) ==> Outside(s, r)
    ensures Balanced(s) && op.Some? ==> forall i :: r < i < |s| && 0 <= i && IsOperator(s, op.value, i) ==> !Outside(s, i)
  {
    if op.None? {
      return -1;
    }
    var opc := Symbol(op.value);
    SymbolStandsFor(op.value);
    var i := |s| - 1;
    while i >= 0
      invariant -1 <= i < |s|
      invariant Balanced(s) ==> Outside(s, i + 1)
      invariant Balanced(s) ==> forall j :: i < j < |s| && IsOperator(s, op.value, j) ==> !Outside(s, j)
    {
      if s[i] == opc && (op.value != Sub || (i > 0 && s[i - 1] == ')')) {
        return i;
      }
      if s[i] == ')' {
        var n := i;
        i := SearchCorClosebracket(s, n);
        if i == -1 {
          assert Balanced(s) ==> Opens(s, n, 0);
          return -1;
        }
        if Balanced(s) {
          GroupIsInside(s, n, i);
        }
      }
      i := i - 1;
    }
    r := -1;
  }

  /** Cutting a balanced string at an operator outside all brackets leaves two balanced strings. */
  lemma SplitIsBalanced(s: string, op: BinaryOp, i: nat)
    requires Balanced(s) && i < |s| && IsOperator(s, op, i) && Outside(s, i)
    ensures Balanced(s[..i]) && Balanced(s[i + 1..])
  {
    forall j | 0 <= j <= i
      ensures Depth(s[..i], 0, j) == Depth(s, 0, j)
    {
      SameDepth(s[..i], 0, s, 0, j);
    }
    var rest := s[i + 1..];
    forall j | 0 <= j <= |rest|
      ensures Depth(rest, 0, j) == Depth(s, 0, i + 1 + j)
    {
      SameDepth(rest, 0, s, i + 1, j);
      DepthSplits(s, 0, i + 1, i + 1 + j);
    }
  }

  lemma {:induction false} SameDepth(s: string, i: nat, t: string, j: nat, n: nat)
    requires i + n <= |s| && j + n <= |t| && s[i..i + n] == t[j..j + n]
    ensures Depth(s, i, i + n) == Depth(t, j, j + n)
    decreases n
  {
    if n > 0 {
      assert s[i..i + n][..n - 1] == s[i..i + n - 1] && t[j..j + n][..n - 1] == t[j..j + n - 1];
      SameDepth(s, i, t, j, n - 1);
      assert s[i..i + n][n - 1] == t[j..j + n][n - 1];
    }
  }
}
