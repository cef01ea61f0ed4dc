/**
 * A bracket-balance checker. The full analysis scans an expression left to
 * right with a stack of open brackets, counting brackets and the nesting
 * depth, and stops at the first closer that has no opener or does not match
 * the most recent one. A simpler check handles round brackets only, and a
 * validator also refuses empty `()` pairs.
 */
module BalancedParentheses {

  // ---------------------------------------------------------------------
  // Bracket predicates and matchers

  predicate IsOpening(c: char)
    ensures IsOpening(c) ==> !IsClosing(c) && c != '\0'
  {
    c == '(' || c == '[' || c == '{'
  }

  predicate IsClosing(c: char)
    ensures IsClosing(c) ==> c != '\0'
  {
    c == ')' || c == ']' || c == '}'
  }

  /** The closer for an opener, '\0' for anything else. */
  function MatchingClosing(c: char): (r: char)
    ensures IsOpening(c) <==> r != '\0'
    ensures IsOpening(c) ==> IsClosing(r) && MatchingOpening(r) == c
  {
    match c
    case '(' => ')'
    case '[' => ']'
    case '{' => '}'
    case _ => '\0'
  }

  /** The opener for a closer, '\0' for anything else. */
  function MatchingOpening(c: char): (r: char)
    ensures IsClosing(c) <==> r != '\0'
    ensures IsClosing(c) ==> IsOpening(r)
  {
    match c
    case ')' => '('
    case ']' => '['
    case '}' => '{'
    case _ => '\0'
  }

  predicate IsMatchingPair(o: char, c: char)
    ensures IsMatchingPair(o, c) <==> IsOpening(o) && MatchingClosing(o) == c
    ensures IsMatchingPair(o, c) <==> IsClosing(c) && MatchingOpening(c) == o
  {
    (o == '(' && c == ')') || (o == '[' && c == ']') || (o == '{' && c == '}')
  }

  /** The two matchers invert each other on the three kinds of bracket. */
  lemma MatchersAgree(o: char, c: char)
    ensures IsOpening(o) ==> MatchingOpening(MatchingClosing(o)) == o
    ensures IsClosing(c) ==> MatchingClosing(MatchingOpening(c)) == c
  {
  }

  // ---------------------------------------------------------------------
  // The scan, one character at a time

  /** Why an expression is not balanced; positions are 0-based. */
  datatype Problem =
    | NoProblem
    | UnmatchedClosing(closing: char, position: nat)
    | Mismatched(opening: char, closing: char, position: nat)
    | UnmatchedOpening

  /**
   * The scan's state: the open brackets not yet closed (most recent last),
   * the number of characters consumed, the bracket counts, the depth and its
   * maximum, and the problem that stopped the scan, if any.
   */
  datatype Scan = Scan(
    stack: seq<char>,
    pos: nat,
    open: nat,
    close: nat,
    maxDepth: int,
    depth: int,
    problem: Problem)

  const Initial := Scan([], 0, 0, 0, 0, 0, NoProblem)

  predicate Running(st: Scan) {
    st.problem == NoProblem
  }

  /** One character: push an opener, pop and compare for a closer, skip anything else. */
  function Step(st: Scan, c: char): Scan {
    if !Running(st) then st
    else if IsOpening(c) then
      st.(stack := st.stack + [c], pos := st.pos + 1, open := st.open + 1, depth := st.depth + 1,
          maxDepth := if st.depth + 1 > st.maxDepth then st.depth + 1 else st.maxDepth)
    else if IsClosing(c) then
      if st.stack == [] then
        st.(pos := st.pos + 1, close := st.close + 1, problem := UnmatchedClosing(c, st.pos))
      else
        var top := st.stack[|st.stack| - 1];
        var rest := st.stack[..|st.stack| - 1];
        if IsMatchingPair(top, c) then
          st.(stack := rest, pos := st.pos + 1, close := st.close + 1, depth := st.depth - 1)
        else
          st.(stack := rest, pos := st.pos + 1, close := st.close + 1, problem := Mismatched(top, c, st.pos))
    else st.(pos := st.pos + 1)
  }

  function Steps(st: Scan, s: string): Scan
    decreases |s|
  {
    if s == [] then st else Step(Steps(st, s[..|s| - 1]), s[|s| - 1])
  }

  /** The result of analysing an expression. */
  datatype Analysis = Analysis(
    isBalanced: bool,
    totalOpenBrackets: nat,
    totalCloseBrackets: nat,
    maxDepth: int,
    currentDepth: int,
    problem: Problem)

  /** The scan's outcome, with openers left over at the end reported as a problem. */
  function Analyze(s: string): (a: Analysis)
    ensures a.isBalanced <==> a.problem == NoProblem
  {
    var r := Steps(Initial, s);
    var leftover := Running(r) && r.stack != [];
    Analysis(Running(r) && r.stack == [], r.open, r.close, r.maxDepth, r.depth,
             if leftover then UnmatchedOpening else r.problem)
  }

  /** Balanced: the whole expression scans without a problem and leaves no opener. */
  predicate Balanced(s: string) {
    Analyze(s).isBalanced
  }

  // ---------------------------------------------------------------------
  // Lemmas about the scan

  lemma {:induction false} StepsConcat(st: Scan, a: string, b: string)
    ensures Steps(st, a + b) == Steps(Steps(st, a), b)
    decreases |b|
  {
    if b == [] {
      assert a + b == a;
    } else {
      StepsConcat(st, a, b[..|b| - 1]);
      assert (a + b)[..|a + b| - 1] == a + b[..|b| - 1];
    }
  }

  /** Once stopped, the scan consumes nothing more. */
  lemma {:induction false} StoppedStays(st: Scan, s: string)
    requires !Running(st)
    ensures Steps(st, s) == st
    decreases |s|
  {
    if s != [] {
      StoppedStays(st, s[..|s| - 1]);
    }
  }

  /**
   * Brackets below the part of the stack a string touches do not matter: if
   * the string scans without a problem from one stack, it does so from the
   * same stack with more openers underneath, and ends with them underneath.
   */
  lemma {:induction false} Frame(st1: Scan, st2: Scan, base: seq<char>, s: string)
    requires Running(st1) && Running(st2) && st2.stack == base + st1.stack
    ensures Running(Steps(st1, s)) ==>
      Running(Steps(st2, s)) && Steps(st2, s).stack == base + Steps(st1, s).stack
    decreases |s|
  {
    if s != [] {
      var t := s[..|s| - 1];
      var c := s[|s| - 1];
      Frame(st1, st2, base, t);
      var r1 := Steps(st1, t);
      var r2 := Steps(st2, t);
      if Running(Steps(st1, s)) {
        assert Running(r1);
        if IsClosing(c) && !IsOpening(c) {
          assert r1.stack != [];
          assert r2.stack[..|r2.stack| - 1] == base + r1.stack[..|r1.stack| - 1];
        } else if IsOpening(c) {
          assert r2.stack + [c] == base + (r1.stack + [c]);
        }
      }
    }
  }

  /** Two balanced expressions written one after the other are balanced. */
  lemma ConcatBalanced(a: string, b: string)
    requires Balanced(a) && Balanced(b)
    ensures Balanced(a + b)
  {
    StepsConcat(Initial, a, b);
    Frame(Initial, Steps(Initial, a), [], b);
  }

  /** A balanced expression wrapped in a matching pair is balanced. */
  lemma WrapBalanced(o: char, a: string)
    requires IsOpening(o) && Balanced(a)
    ensures Balanced([o] + a + [MatchingClosing(o)])
  {
    var c := MatchingClosing(o);
    StepsConcat(Initial, [o], a);
    StepsConcat(Initial, [o] + a, [c]);
    assert Steps(Initial, [o]) == Step(Initial, o) by {
      assert [o][..0] == [];
    }
    Frame(Initial, Steps(Initial, [o]), [o], a);
    assert [c][..0] == [];
  }

  /** A closer first is never balanced, whatever follows. */
  lemma CloserFirstUnbalanced(c: char, s: string)
    requires IsClosing(c)
    ensures !Balanced([c] + s)
    ensures Analyze([c] + s).problem == UnmatchedClosing(c, 0)
  {
    StepsConcat(Initial, [c], s);
    assert [c][..0] == [];
    StoppedStays(Steps(Initial, [c]), s);
  }

  /** Characters other than brackets are ignored: removing one does not change the verdict. */
  lemma OtherCharactersIgnored(a: string, x: char, b: string)
    requires !IsOpening(x) && !IsClosing(x)
    ensures Balanced(a + [x] + b) <==> Balanced(a + b)
  {
    var m := Steps(Initial, a);
    StepsConcat(Initial, a + [x], b);
    StepsConcat(Initial, a, [x]);
    StepsConcat(Initial, a, b);
    assert [x][..0] == [];
    var mx := Steps(m, [x]);
    if Running(m) {
      assert Running(mx) && mx.stack == m.stack;
      Frame(m, mx, [], b);
      Frame(mx, m, [], b);
    } else {
      StoppedStays(m, b);
      StoppedStays(mx, b);
    }
  }

  /** Number of opening and closing brackets. */
  function Openers(s: string): nat {
    if s == [] then 0 else Openers(s[..|s| - 1]) + (if IsOpening(s[|s| - 1]) then 1 else 0)
  }

  function Closers(s: string): nat {
    if s == [] then 0 else Closers(s[..|s| - 1]) + (if IsClosing(s[|s| - 1]) then 1 else 0)
  }

  /**
   * The scan's depth is never negative and never above its maximum; while
   * running, the depth is the number of pending openers, the opener count
   * exceeds the closer count by exactly that, and the whole expression has
   * been consumed.
   */
  lemma {:induction false} ScanShape(s: string)
    ensures var r := Steps(Initial, s);
      && 0 <= r.depth <= r.maxDepth
      && r.pos <= |s|
      && (Running(r) ==> r.depth == |r.stack| && r.open - r.close == |r.stack| && r.pos == |s|)
    decreases |s|
  {
    if s != [] {
      ScanShape(s[..|s| - 1]);
    }
  }

  /**
   * The counts cover exactly the consumed prefix. A scan that stopped did so
   * at a closer, the last character consumed, whose position the problem
   * records.
   */
  lemma {:induction false} ScanPrefixCounts(s: string)
    ensures var r := Steps(Initial, s);
      && r.pos <= |s|
      && r.open == Openers(s[..r.pos]) && r.close == Closers(s[..r.pos])
      && (!Running(r) ==>
            && 0 < r.pos && IsClosing(s[r.pos - 1])
            && (r.problem.UnmatchedClosing? || r.problem.Mismatched?)
            && r.problem.position == r.pos - 1)
    decreases |s|
  {
    ScanShape(s);
    if s == [] {
      assert s[..0] == [];
    } else {
      var t := s[..|s| - 1];
      ScanPrefixCounts(t);
      ScanShape(t);
      if Running(Steps(Initial, t)) {
        assert t[..|t|] == t;
        RunningLast(s);
        assert s[..|s|] == s;
      } else {
        StoppedPrefix(s);
      }
    }
  }

  /** One more character after a prefix that scanned without a problem: the counts grow with it. */
  lemma RunningLast(s: string)
    requires s != []
    requires var r0 := Steps(Initial, s[..|s| - 1]);
      && Running(r0) && r0.pos == |s| - 1
      && r0.open == Openers(s[..|s| - 1]) && r0.close == Closers(s[..|s| - 1])
    ensures var r := Steps(Initial, s);
      && r.pos == |s| && r.open == Openers(s) && r.close == Closers(s)
      && (!Running(r) ==>
            IsClosing(s[|s| - 1]) && (r.problem.UnmatchedClosing? || r.problem.Mismatched?) && r.problem.position == |s| - 1)
  {
    var r0, c := Steps(Initial, s[..|s| - 1]), s[|s| - 1];
    assert Steps(Initial, s) == Step(r0, c);
  }

  /** A scan that stopped before the last character ignores it. */
  lemma StoppedPrefix(s: string)
    requires s != [] && !Running(Steps(Initial, s[..|s| - 1]))
    requires Steps(Initial, s[..|s| - 1]).pos <= |s| - 1
    ensures var r := Steps(Initial, s[..|s| - 1]);
      && Steps(Initial, s) == r
      && s[..|s| - 1][..r.pos] == s[..r.pos]
      && (0 < r.pos ==> s[..|s| - 1][r.pos - 1] == s[r.pos - 1])
  {
  }

  /** The maximum depth is the largest depth reached at any point of the scan. */
  lemma {:induction false} MaxDepthReached(s: string)
    ensures forall j :: 0 <= j <= |s| ==> Steps(Initial, s[..j]).depth <= Steps(Initial, s).maxDepth
    ensures exists j :: 0 <= j <= |s| && Steps(Initial, s[..j]).depth == Steps(Initial, s).maxDepth
    decreases |s|
  {
    ScanShape(s);
    if s == [] {
      assert s[..0] == s;
    } else {
      var t := s[..|s| - 1];
      MaxDepthReached(t);
      assert forall j :: 0 <= j <= |t| ==> t[..j] == s[..j];
      assert s[..|s|] == s;
      var r0 := Steps(Initial, t);
      var r := Steps(Initial, s);
      assert r.maxDepth >= r0.maxDepth;
      if r.maxDepth != r0.maxDepth {
        assert r.depth == r.maxDepth;
      }
    }
  }

  /** A balanced expression has as many closers as openers and ends at depth 0. */
  lemma BalancedCounts(s: string)
    requires Balanced(s)
    ensures Analyze(s).totalOpenBrackets == Analyze(s).totalCloseBrackets == Openers(s) == Closers(s)
    ensures Analyze(s).currentDepth == 0 && Analyze(s).problem == NoProblem
  {
    ScanShape(s);
    ScanPrefixCounts(s);
    assert s[..|s|] == s;
  }

  // ---------------------------------------------------------------------
  // The checking loops

  /** The scan of the first i + 1 characters is one more step after the first i. */
  lemma StepsPrefix(s: string, i: nat)
    requires i < |s|
    ensures Steps(Initial, s[..i + 1]) == Step(Steps(Initial, s[..i]), s[i])
  {
    assert s[..i + 1][..i] == s[..i];
  }

  /** When the scan stops at character i, the rest of the string leaves it as it is. */
  lemma StoppedAt(s: string, i: nat)
    requires i < |s| && !Running(Steps(Initial, s[..i + 1]))
    ensures Steps(Initial, s) == Steps(Initial, s[..i + 1])
  {
    assert s == s[..i + 1] + s[i + 1..];
    StepsConcat(Initial, s[..i + 1], s[i + 1..]);
    StoppedStays(Steps(Initial, s[..i + 1]), s[i + 1..]);
  }

  /** The analysis loop, with an explicit stack of pending openers. */
  method AnalyzeExpression(s: string) returns (a: Analysis)
    ensures a == Analyze(s)
  {
    var stack: seq<char> := [];
    var open, close, maxDepth, depth := 0, 0, 0, 0;
    var problem := NoProblem;
    var i := 0;
    while i < |s|
      invariant 0 <= i <= |s|
      invariant Steps(Initial, s[..i]) == Scan(stack, i, open, close, maxDepth, depth, NoProblem)
    {
      StepsPrefix(s, i);
      var c := s[i];
      if IsOpening(c) {
        stack := stack + [c];
        open := open + 1;
        depth := depth + 1;
        if depth > maxDepth {
          maxDepth := depth;
        }
      } else if IsClosing(c) {
        close := close + 1;
        if stack == [] {
          problem := UnmatchedClosing(c, i);
          break;
        }
        var top := stack[|stack| - 1];
        stack := stack[..|stack| - 1];
        if IsMatchingPair(top, c) {
          depth := depth - 1;
        } else {
          problem := Mismatched(top, c, i);
          break;
        }
      }
      i := i + 1;
    }
    if i < |s| {
      StoppedAt(s, i);
    } else {
      assert s[..i] == s;
    }
    var leftover := problem == NoProblem && stack != [];
    a := Analysis(problem == NoProblem && stack == [], open, close, maxDepth, depth,
                  if leftover then UnmatchedOpening else problem);
  }

  /** Round brackets only: the count of `(` minus `)`. */
  function Net(s: string): int {
    if s == [] then 0
    else Net(s[..|s| - 1]) + (if s[|s| - 1] == '(' then 1 else if s[|s| - 1] == ')' then -1 else 0)
  }

  /** The running count of `(` minus `)` never drops below zero and ends at zero. */
  ghost predicate SimpleBalanced(s: string) {
    && (forall j :: 0 <= j <= |s| ==> Net(s[..j]) >= 0)
    && Net(s) == 0
  }

  /** The round-bracket check; the stack holds the positions of pending `(`. */
  method CheckSimpleParentheses(s: string) returns (ok: bool)
    ensures ok <==> SimpleBalanced(s)
  {
    var stack: seq<nat> := [];
    var i := 0;
    while i < |s|
      invariant 0 <= i <= |s|
      invariant |stack| == Net(s[..i])
      invariant forall j :: 0 <= j <= i ==> Net(s[..j]) >= 0
    {
      assert s[..i + 1][..i] == s[..i];
      if s[i] == '(' {
        stack := stack + [i];
      } else if s[i] == ')' {
        if stack == [] {
          assert Net(s[..i + 1]) < 0;
          return false;
        }
        stack := stack[..|stack| - 1];
      }
      i := i + 1;
    }
    assert s[..i] == s;
    ok := stack == [];
  }

  /** No `(` is immediately followed by `)`. */
  predicate NoEmptyParentheses(s: string) {
    forall i :: 0 < i < |s| ==> !(s[i - 1] == '(' && s[i] == ')')
  }

  /** Valid: balanced brackets and no empty round pair. */
  method ValidateMathExpression(s: string) returns (ok: bool)
    ensures ok <==> Balanced(s) && NoEmptyParentheses(s)
  {
    var a := AnalyzeExpression(s);
    if !a.isBalanced {
      return false;
    }
    var i := 0;
    while i < |s|
      invariant 0 <= i <= |s|
      invariant forall j :: 0 < j < i ==> !(s[j - 1] == '(' && s[j] == ')')
    {
      if s[i] == ')' && i > 0 && s[i - 1] == '(' {
        return false;
      }
      i := i + 1;
    }
    ok := true;
  }
}
