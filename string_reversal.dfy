/**
 * String reversals driven by a bounded character stack: the whole string,
 * each space-separated word, only the letters, only the vowels, letters
 * within their case, and a palindrome test over the lower-cased letters and
 * digits. Characters are ASCII; the character classes are those of the C
 * locale.
 */
module StringReversal {

  // ---------------------------------------------------------------------
  // Character classes

  predicate IsUpper(c: char) { 'A' <= c <= 'Z' }
  predicate IsLower(c: char) { 'a' <= c <= 'z' }
  predicate IsAlpha(c: char) { IsUpper(c) || IsLower(c) }
  predicate IsDigit(c: char) { '0' <= c <= '9' }
  predicate IsAlnum(c: char) { IsAlpha(c) || IsDigit(c) }

  function ToLower(c: char): char {
    if IsUpper(c) then (c as int + 32) as char else c
  }

  predicate IsVowel(c: char) {
    var l := ToLower(c);
    l == 'a' || l == 'e' || l == 'i' || l == 'o' || l == 'u'
  }

  /** The classes of characters a selective reversal moves. */
  datatype CharClass = Alphabetic | Uppercase | Lowercase | Vowel

  predicate Selected(k: CharClass, c: char) {
    match k
    case Alphabetic => IsAlpha(c)
    case Uppercase => IsUpper(c)
    case Lowercase => IsLower(c)
    case Vowel => IsVowel(c)
  }

  // ---------------------------------------------------------------------
  // The bounded stack

  class CharStack {
    var items: seq<char>
    var maxSize: int

    /** An empty stack holding at most maxSize characters; the top is the last item. */
    constructor (maxSize: int)
      ensures items == [] && this.maxSize == maxSize
    {
      items := [];
      this.maxSize := maxSize;
    }

    predicate IsEmpty()
      reads this
    {
      items == []
    }

    predicate IsFull()
      reads this
    {
      |items| >= maxSize
    }

    /** Returns 1 and pushes, or returns 0 and changes nothing when full. */
    method Push(c: char) returns (ok: int)
      modifies this
      ensures maxSize == old(maxSize)
      ensures ok == 1 <==> old(|items|) < maxSize
      ensures ok == 1 ==> items == old(items) + [c]
      ensures ok != 1 ==> ok == 0 && items == old(items)
    {
      if IsFull() {
        return 0;
      }
      items := items + [c];
      ok := 1;
    }

    /** Returns and removes the top, or returns NUL and changes nothing when empty. */
    method Pop() returns (c: char)
      modifies this
      ensures maxSize == old(maxSize)
      ensures old(items) == [] ==> c == '\0' && items == old(items)
      ensures old(items) != [] ==> c == old(items[|items| - 1]) && items == old(items[..|items| - 1])
    {
      if IsEmpty() {
        return '\0';
      }
      c := items[|items| - 1];
      items := items[..|items| - 1];
    }
  }

  // ---------------------------------------------------------------------
  // Whole-string reversal

  /** The characters of s, last first. */
  function Reverse(s: seq<char>): (r: seq<char>)
    ensures |r| == |s|
  {
    seq(|s|, i requires 0 <= i < |s| => s[|s| - 1 - i])
  }

  lemma ReverseInvolutive(s: seq<char>)
    ensures Reverse(Reverse(s)) == s
  {
  }

  /** Pushes every character, then pops them all into the result. */
  method ReverseString(s: seq<char>) returns (r: seq<char>)
    ensures r == Reverse(s)
  {
    var stack := new CharStack(|s|);
    var i := 0;
    while i < |s|
      invariant 0 <= i <= |s|
      invariant stack.items == s[..i] && stack.maxSize == |s|
    {
      var _ := stack.Push(s[i]);
      assert s[..i + 1] == s[..i] + [s[i]];
      i := i + 1;
    }
    r := [];
    i := 0;
    while i < |s|
      invariant 0 <= i <= |s|
      invariant stack.items == s[..|s| - i]
      invariant r == Reverse(s)[..i]
    {
      var c := stack.Pop();
      r := r + [c];
      i := i + 1;
    }
  }

  // ---------------------------------------------------------------------
  // Reversal of selected characters

  /** The selected characters among the first n of s, in order. */
  function PickedBefore(s: seq<char>, k: CharClass, n: nat): (p: seq<char>)
    requires n <= |s|
    ensures |p| <= n
  {
    if n == 0 then []
    else PickedBefore(s, k, n - 1) + (if Selected(k, s[n - 1]) then [s[n - 1]] else [])
  }

  /** The selected characters of s, in order. */
  function Picked(s: seq<char>, k: CharClass): (p: seq<char>)
    ensures |p| <= |s|
  {
    PickedBefore(s, k, |s|)
  }

  /** How many characters before position i are selected. */
  function Rank(s: seq<char>, k: CharClass, i: nat): nat
    requires i <= |s|
  {
    |PickedBefore(s, k, i)|
  }

  /** The characters selected before position i are the first ones selected before any later n. */
  lemma {:induction false} PickedPrefix(s: seq<char>, k: CharClass, i: nat, n: nat)
    requires i <= n <= |s|
    ensures Rank(s, k, i) <= |PickedBefore(s, k, n)|
    ensures PickedBefore(s, k, i) == PickedBefore(s, k, n)[..Rank(s, k, i)]
    decreases n
  {
    if i < n {
      PickedPrefix(s, k, i, n - 1);
    }
  }

  /** A selected character at position i is the picked character numbered by its rank. */
  lemma PickedAt(s: seq<char>, k: CharClass, i: nat)
    requires i < |s| && Selected(k, s[i])
    ensures Rank(s, k, i) < |Picked(s, k)|
    ensures Picked(s, k)[Rank(s, k, i)] == s[i]
  {
    PickedPrefix(s, k, i + 1, |s|);
  }

  /** Every picked character belongs to the class. */
  lemma {:induction false} PickedSelected(s: seq<char>, k: CharClass, n: nat, j: nat)
    requires n <= |s| && j < |PickedBefore(s, k, n)|
    ensures Selected(k, PickedBefore(s, k, n)[j])
    decreases n
  {
    if j < |PickedBefore(s, k, n - 1)| {
      PickedSelected(s, k, n - 1, j);
    }
  }

  /** The character the selective reversal puts at position i. */
  function Mirror(s: seq<char>, k: CharClass, i: nat): char
    requires i < |s|
  {
    if Selected(k, s[i]) then
      var p := Picked(s, k);
      PickedAt(s, k, i);
      p[|p| - 1 - Rank(s, k, i)]
    else s[i]
  }

  /** The selected characters, in reverse order, at the selected positions; the rest in place. */
  function ReverseSelected(s: seq<char>, k: CharClass): (r: seq<char>)
    ensures |r| == |s|
  {
    seq(|s|, i requires 0 <= i < |s| => Mirror(s, k, i))
  }

  /** How many selected characters remain after position i. */
  lemma RankBound(s: seq<char>, k: CharClass, i: nat)
    requires i < |s|
    ensures Rank(s, k, i + 1) <= |Picked(s, k)|
    ensures Rank(s, k, i + 1) == Rank(s, k, i) + (if Selected(k, s[i]) then 1 else 0)
  {
    PickedPrefix(s, k, i + 1, |s|);
  }

  /** What the reversal puts at position i; it is selected exactly when the original character is. */
  lemma MirrorStep(s: seq<char>, k: CharClass, i: nat)
    requires i < |s|
    ensures Rank(s, k, i + 1) <= |Picked(s, k)|
    ensures Rank(s, k, i + 1) == Rank(s, k, i) + (if Selected(k, s[i]) then 1 else 0)
    ensures Selected(k, s[i]) ==> ReverseSelected(s, k)[i] == Picked(s, k)[|Picked(s, k)| - 1 - Rank(s, k, i)]
    ensures !Selected(k, s[i]) ==> ReverseSelected(s, k)[i] == s[i]
    ensures Selected(k, ReverseSelected(s, k)[i]) <==> Selected(k, s[i])
  {
    RankBound(s, k, i);
    var p := Picked(s, k);
    assert ReverseSelected(s, k)[i] == Mirror(s, k, i);
    if Selected(k, s[i]) {
      PickedSelected(s, k, |s|, |p| - 1 - Rank(s, k, i));
    }
  }

  /** Two strings with the same selection pattern have the same ranks. */
  lemma {:induction false} SamePatternSameRank(a: seq<char>, b: seq<char>, k: CharClass, i: nat)
    requires |a| == |b| && i <= |a|
    requires forall j :: 0 <= j < |a| ==> (Selected(k, a[j]) <==> Selected(k, b[j]))
    ensures Rank(a, k, i) == Rank(b, k, i)
  {
    if i > 0 {
      SamePatternSameRank(a, b, k, i - 1);
    }
  }

  /** One more position of the reversal adds the next character of the reversed picks. */
  lemma ReverseSelectedPrefix(s: seq<char>, k: CharClass, n: nat)
    requires n < |s| && Rank(s, k, n) <= |Picked(s, k)|
    requires PickedBefore(ReverseSelected(s, k), k, n) == Reverse(Picked(s, k))[..Rank(s, k, n)]
    ensures Rank(s, k, n + 1) <= |Picked(s, k)|
    ensures PickedBefore(ReverseSelected(s, k), k, n + 1) == Reverse(Picked(s, k))[..Rank(s, k, n + 1)]
  {
    MirrorStep(s, k, n);
    if Selected(k, s[n]) {
      var q := Reverse(Picked(s, k));
      assert q[..Rank(s, k, n) + 1] == q[..Rank(s, k, n)] + [q[Rank(s, k, n)]];
    }
  }

  /**
   * The selective reversal keeps the length, leaves unselected characters
   * in place, keeps which positions are selected, and lists the selected
   * characters in reverse order.
   */
  lemma ReverseSelectedShape(s: seq<char>, k: CharClass)
    ensures var r := ReverseSelected(s, k);
      && (forall i :: 0 <= i < |s| && !Selected(k, s[i]) ==> r[i] == s[i])
      && (forall i :: 0 <= i < |s| ==> (Selected(k, r[i]) <==> Selected(k, s[i])))
      && Picked(r, k) == Reverse(Picked(s, k))
  {
    var r := ReverseSelected(s, k);
    forall i | 0 <= i < |s|
      ensures (Selected(k, r[i]) <==> Selected(k, s[i])) && (!Selected(k, s[i]) ==> r[i] == s[i])
    {
      MirrorStep(s, k, i);
    }
    var n := 0;
    while n < |s|
      invariant 0 <= n <= |s|
      invariant Rank(s, k, n) <= |Picked(s, k)|
      invariant PickedBefore(r, k, n) == Reverse(Picked(s, k))[..Rank(s, k, n)]
    {
      ReverseSelectedPrefix(s, k, n);
      n := n + 1;
    }
  }

  /** Reversing the same class twice restores the string. */
  lemma ReverseSelectedInvolutive(s: seq<char>, k: CharClass)
    ensures ReverseSelected(ReverseSelected(s, k), k) == s
  {
    var r := ReverseSelected(s, k);
    ReverseSelectedShape(s, k);
    forall i | 0 <= i < |s|
      ensures ReverseSelected(r, k)[i] == s[i]
    {
      ReversedBackAt(s, k, i);
    }
  }

  /** Given the shape of one reversal, a second one puts back the character at position i. */
  lemma ReversedBackAt(s: seq<char>, k: CharClass, i: nat)
    requires i < |s|
    requires Picked(ReverseSelected(s, k), k) == Reverse(Picked(s, k))
    requires forall j :: 0 <= j < |s| ==> (Selected(k, ReverseSelected(s, k)[j]) <==> Selected(k, s[j]))
    ensures ReverseSelected(ReverseSelected(s, k), k)[i] == s[i]
  {
    var r := ReverseSelected(s, k);
    MirrorStep(r, k, i);
    MirrorStep(s, k, i);
    if Selected(k, s[i]) {
      SamePatternSameRank(r, s, k, i);
      PickedAt(s, k, i);
    }
  }

  /** A stack as large as the string, holding its selected characters with the last on top. */
  method PushMatching(s: seq<char>, k: CharClass) returns (stack: CharStack)
    ensures fresh(stack)
    ensures stack.items == Picked(s, k) && stack.maxSize == |s|
  {
    stack := new CharStack(|s|);
    var i := 0;
    while i < |s|
      invariant 0 <= i <= |s|
      invariant stack.items == PickedBefore(s, k, i) && stack.maxSize == |s|
    {
      if Selected(k, s[i]) {
        var _ := stack.Push(s[i]);
      }
      i := i + 1;
    }
  }

  /** Pushes the selected characters, then rebuilds the string popping one at each selected position. */
  method ReverseMatching(s: seq<char>, k: CharClass) returns (r: seq<char>)
    ensures r == ReverseSelected(s, k)
  {
    var stack := PushMatching(s, k);
    ghost var p := Picked(s, k);
    ghost var rs := ReverseSelected(s, k);
    r := [];
    var i := 0;
    while i < |s|
      invariant 0 <= i <= |s|
      invariant Rank(s, k, i) <= |p|
      invariant stack.items == p[..|p| - Rank(s, k, i)]
      invariant r == rs[..i]
    {
      MirrorStep(s, k, i);
      var c := s[i];
      if Selected(k, s[i]) {
        c := stack.Pop();
      }
      assert rs[..i + 1] == rs[..i] + [c];
      r := r + [c];
      i := i + 1;
    }
  }

  method ReverseAlphabeticOnly(s: seq<char>) returns (r: seq<char>)
    ensures r == ReverseSelected(s, Alphabetic)
  {
    r := ReverseMatching(s, Alphabetic);
  }

  method ReverseVowelsOnly(s: seq<char>) returns (r: seq<char>)
    ensures r == ReverseSelected(s, Vowel)
  {
    r := ReverseMatching(s, Vowel);
  }

  // ---------------------------------------------------------------------
  // Case-preserving reversal

  /** Uppercase letters reversed among uppercase positions, lowercase among lowercase ones. */
  function CaseReversed(s: seq<char>): (r: seq<char>)
    ensures |r| == |s|
  {
    var u, l := ReverseSelected(s, Uppercase), ReverseSelected(s, Lowercase);
    seq(|s|, i requires 0 <= i < |s| => if IsUpper(s[i]) then u[i] else if IsLower(s[i]) then l[i] else s[i])
  }

  /** At a position of class k, the case-preserving reversal agrees with the reversal of class k. */
  lemma CaseReversedAt(s: seq<char>, k: CharClass, i: nat)
    requires k == Uppercase || k == Lowercase
    requires i < |s|
    ensures Selected(k, CaseReversed(s)[i]) <==> Selected(k, s[i])
    ensures Selected(k, s[i]) ==> CaseReversed(s)[i] == ReverseSelected(s, k)[i]
    ensures !IsAlpha(s[i]) ==> CaseReversed(s)[i] == s[i]
  {
    MirrorStep(s, Uppercase, i);
    MirrorStep(s, Lowercase, i);
  }

  /** The class-k characters of the case-preserving reversal are those of the class-k reversal. */
  lemma CaseReversedPicks(s: seq<char>, k: CharClass)
    requires k == Uppercase || k == Lowercase
    ensures Picked(CaseReversed(s), k) == Reverse(Picked(s, k))
  {
    var r, rk := CaseReversed(s), ReverseSelected(s, k);
    var n := 0;
    while n < |s|
      invariant 0 <= n <= |s|
      invariant PickedBefore(r, k, n) == PickedBefore(rk, k, n)
    {
      CaseReversedAt(s, k, n);
      MirrorStep(s, k, n);
      n := n + 1;
    }
    ReverseSelectedShape(s, k);
  }

  /**
   * Case-preserving reversal keeps every character's case class, leaves
   * non-letters in place, and reverses the uppercase and the lowercase
   * letters each among themselves.
   */
  lemma CaseReversedShape(s: seq<char>)
    ensures var r := CaseReversed(s);
      && (forall i :: 0 <= i < |s| && !IsAlpha(s[i]) ==> r[i] == s[i])
      && (forall i :: 0 <= i < |s| ==> (IsUpper(r[i]) <==> IsUpper(s[i])) && (IsLower(r[i]) <==> IsLower(s[i])))
      && Picked(r, Uppercase) == Reverse(Picked(s, Uppercase))
      && Picked(r, Lowercase) == Reverse(Picked(s, Lowercase))
  {
    forall i | 0 <= i < |s|
      ensures var r := CaseReversed(s);
        (!IsAlpha(s[i]) ==> r[i] == s[i])
        && (IsUpper(r[i]) <==> IsUpper(s[i])) && (IsLower(r[i]) <==> IsLower(s[i]))
    {
      CaseReversedAt(s, Uppercase, i);
      CaseReversedAt(s, Lowercase, i);
    }
    CaseReversedPicks(s, Uppercase);
    CaseReversedPicks(s, Lowercase);
  }

  /** One pass that pushes uppercase letters on one stack and lowercase letters on the other. */
  method PushByCase(s: seq<char>) returns (upper: CharStack, lower: CharStack)
    ensures fresh(upper) && fresh(lower) && upper != lower
    ensures upper.items == Picked(s, Uppercase) && upper.maxSize == |s|
    ensures lower.items == Picked(s, Lowercase) && lower.maxSize == |s|
  {
    upper := new CharStack(|s|);
    lower := new CharStack(|s|);
    var i := 0;
    while i < |s|
      invariant 0 <= i <= |s|
      invariant upper.items == PickedBefore(s, Uppercase, i) && upper.maxSize == |s|
      invariant lower.items == PickedBefore(s, Lowercase, i) && lower.maxSize == |s|
    {
      if IsUpper(s[i]) {
        var _ := upper.Push(s[i]);
      } else if IsLower(s[i]) {
        var _ := lower.Push(s[i]);
      }
      i := i + 1;
    }
  }

  /** Position i of the case-preserving reversal, in terms of the picks of each case. */
  lemma CaseStep(s: seq<char>, i: nat)
    requires i < |s|
    ensures var pu, pl := Picked(s, Uppercase), Picked(s, Lowercase);
      && Rank(s, Uppercase, i + 1) <= |pu| && Rank(s, Lowercase, i + 1) <= |pl|
      && Rank(s, Uppercase, i + 1) == Rank(s, Uppercase, i) + (if IsUpper(s[i]) then 1 else 0)
      && Rank(s, Lowercase, i + 1) == Rank(s, Lowercase, i) + (if IsLower(s[i]) then 1 else 0)
      && (IsUpper(s[i]) ==> CaseReversed(s)[i] == pu[|pu| - 1 - Rank(s, Uppercase, i)])
      && (IsLower(s[i]) ==> CaseReversed(s)[i] == pl[|pl| - 1 - Rank(s, Lowercase, i)])
      && (!IsUpper(s[i]) && !IsLower(s[i]) ==> CaseReversed(s)[i] == s[i])
  {
    MirrorStep(s, Uppercase, i);
    MirrorStep(s, Lowercase, i);
    CaseReversedAt(s, Uppercase, i);
    CaseReversedAt(s, Lowercase, i);
  }

  /** Both case stacks hold the picks of their case not yet handed out before position i. */
  ghost predicate CaseStacksAt(s: seq<char>, i: nat, upper: CharStack, lower: CharStack)
    requires i <= |s|
    reads upper, lower
  {
    var pu, pl := Picked(s, Uppercase), Picked(s, Lowercase);
    && Rank(s, Uppercase, i) <= |pu| && Rank(s, Lowercase, i) <= |pl|
    && upper.items == pu[..|pu| - Rank(s, Uppercase, i)]
    && lower.items == pl[..|pl| - Rank(s, Lowercase, i)]
  }

  /** Stacks holding all the picks of each case are ready for position 0. */
  lemma CaseStacksStart(s: seq<char>, upper: CharStack, lower: CharStack)
    requires upper.items == Picked(s, Uppercase) && lower.items == Picked(s, Lowercase)
    ensures CaseStacksAt(s, 0, upper, lower)
  {
  }

  /** The character for position i: popped from the stack of its case, or copied. */
  method RefillAt(s: seq<char>, i: nat, upper: CharStack, lower: CharStack) returns (c: char)
    requires i < |s| && upper != lower && CaseStacksAt(s, i, upper, lower)
    modifies upper, lower
    ensures c == CaseReversed(s)[i]
    ensures CaseStacksAt(s, i + 1, upper, lower)
  {
    CaseStep(s, i);
    c := s[i];
    if IsUpper(s[i]) {
      c := upper.Pop();
    } else if IsLower(s[i]) {
      c := lower.Pop();
    }
  }

  /**
   * Each letter position is refilled from its own case's stack, which is
   * never empty when it is needed.
   */
  method ReverseCasePreserving(s: seq<char>) returns (r: seq<char>)
    ensures r == CaseReversed(s)
  {
    var upper, lower := PushByCase(s);
    CaseStacksStart(s, upper, lower);
    ghost var cr := CaseReversed(s);
    r := [];
    var i := 0;
    while i < |s|
      invariant 0 <= i <= |s|
      invariant CaseStacksAt(s, i, upper, lower)
      invariant r == cr[..i]
    {
      var c := RefillAt(s, i, upper, lower);
      assert cr[..i + 1] == cr[..i] + [c];
      r := r + [c];
      i := i + 1;
    }
    assert cr[..|s|] == cr;
  }

  // ---------------------------------------------------------------------
  // Word-by-word reversal

  /** The position of the last space, or -1. */
  function LastSpace(s: seq<char>): (j: int)
    ensures -1 <= j < |s|
    ensures j >= 0 ==> s[j] == ' '
    ensures forall m :: j < m < |s| ==> s[m] != ' '
  {
    if s == [] then -1
    else if s[|s| - 1] == ' ' then |s| - 1
    else LastSpace(s[..|s| - 1])
  }

  lemma LastSpaceIs(s: seq<char>, j: int)
    requires -1 <= j < |s| && (j >= 0 ==> s[j] == ' ') && forall m :: j < m < |s| ==> s[m] != ' '
    ensures LastSpace(s) == j
  {
  }

  /** Each maximal run of non-space characters reversed in place. */
  function ReverseWords(s: seq<char>): (r: seq<char>)
    ensures |r| == |s|
    decreases |s|
  {
    var j := LastSpace(s);
    if j < 0 then Reverse(s)
    else ReverseWords(s[..j]) + [' '] + Reverse(s[j + 1..])
  }

  /** Word reversal keeps every space where it was and puts none elsewhere. */
  lemma {:induction false} ReverseWordsKeepsSpaces(s: seq<char>)
    ensures forall i :: 0 <= i < |s| ==> (ReverseWords(s)[i] == ' ' <==> s[i] == ' ')
    decreases |s|
  {
    var j := LastSpace(s);
    if j >= 0 {
      ReverseWordsKeepsSpaces(s[..j]);
      var r := ReverseWords(s);
      forall i | 0 <= i < |s|
        ensures r[i] == ' ' <==> s[i] == ' '
      {
        if i < j {
          assert r[i] == ReverseWords(s[..j])[i];
        } else if i > j {
          assert r[i] == Reverse(s[j + 1..])[i - j - 1];
        }
      }
    }
  }

  predicate NoSpace(w: seq<char>) {
    forall m :: 0 <= m < |w| ==> w[m] != ' '
  }

  lemma ReverseNoSpace(w: seq<char>)
    requires NoSpace(w)
    ensures NoSpace(Reverse(w))
  {
    var r := Reverse(w);
    forall m | 0 <= m < |r|
      ensures r[m] != ' '
    {
      assert r[m] == w[|w| - 1 - m];
    }
  }

  /** A sentence with no space is one word, reversed whole. */
  lemma OneWord(w: seq<char>)
    requires NoSpace(w)
    ensures ReverseWords(w) == Reverse(w)
  {
    LastSpaceIs(w, -1);
  }

  /** Appending a space and a word reverses just that word. */
  lemma ReverseWordsJoin(head: seq<char>, tail: seq<char>)
    requires NoSpace(tail)
    ensures ReverseWords(head + [' '] + tail) == ReverseWords(head) + [' '] + Reverse(tail)
  {
    var s := head + [' '] + tail;
    var j := |head|;
    forall m | j < m < |s|
      ensures s[m] != ' '
    {
      assert s[m] == tail[m - j - 1];
    }
    LastSpaceIs(s, j);
    assert s[..j] == head;
    assert s[j + 1..] == tail;
  }

  /** Reversing the words twice restores the sentence. */
  lemma {:induction false} ReverseWordsInvolutive(s: seq<char>)
    ensures ReverseWords(ReverseWords(s)) == s
    decreases |s|
  {
    var j := LastSpace(s);
    if j < 0 {
      assert NoSpace(s);
      OneWord(s);
      ReverseNoSpace(s);
      OneWord(Reverse(s));
      ReverseInvolutive(s);
    } else {
      var head, tail := s[..j], s[j + 1..];
      assert s == head + [' '] + tail;
      assert NoSpace(tail) by {
        forall m | 0 <= m < |tail|
          ensures tail[m] != ' '
        {
          assert tail[m] == s[j + 1 + m];
        }
      }
      ReverseWordsJoin(head, tail);
      ReverseNoSpace(tail);
      ReverseWordsJoin(ReverseWords(head), Reverse(tail));
      ReverseWordsInvolutive(head);
      ReverseInvolutive(tail);
    }
  }

  /** A trailing space is kept after the reversed words. */
  lemma TrailingSpace(head: seq<char>)
    ensures ReverseWords(head + [' ']) == ReverseWords(head) + [' ']
  {
    var none: seq<char> := [];
    assert head + [' '] == head + [' '] + none;
    ReverseWordsJoin(head, none);
    assert Reverse(none) == none;
  }

  /** The word after the last space is reversed on its own. */
  lemma WordAfterSpace(head: seq<char>, tail: seq<char>)
    requires NoSpace(tail)
    ensures ReverseWords(head + [' '] + tail) == ReverseWords(head + [' ']) + Reverse(tail)
  {
    ReverseWordsJoin(head, tail);
    TrailingSpace(head);
  }

  lemma ReverseLast(s: seq<char>)
    requires s != []
    ensures Reverse(s) == [s[|s| - 1]] + Reverse(s[..|s| - 1])
  {
    var a, b := Reverse(s), [s[|s| - 1]] + Reverse(s[..|s| - 1]);
    forall m | 0 <= m < |s|
      ensures a[m] == b[m]
    {
      if m > 0 {
        assert b[m] == Reverse(s[..|s| - 1])[m - 1];
      }
    }
  }

  /** Empties the stack; the characters come out in reverse order of their pushes. */
  method PopAll(stack: CharStack) returns (word: seq<char>)
    modifies stack
    ensures word == Reverse(old(stack.items))
    ensures stack.items == [] && stack.maxSize == old(stack.maxSize)
  {
    word := [];
    while !stack.IsEmpty()
      invariant word + Reverse(stack.items) == Reverse(old(stack.items))
      invariant stack.maxSize == old(stack.maxSize)
      decreases |stack.items|
    {
      ghost var before := stack.items;
      ReverseLast(before);
      var c := stack.Pop();
      word := word + [c];
    }
  }

  /** A word character extends the pending word. */
  lemma WordGrows(s: seq<char>, start: nat, i: nat)
    requires start <= i < |s| && s[i] != ' ' && NoSpace(s[start..i])
    ensures s[start..i + 1] == s[start..i] + [s[i]] && NoSpace(s[start..i + 1])
  {
    assert s[start..i + 1] == s[start..i] + [s[i]];
  }

  /** At a space or the end, the pending word closes the sentence so far. */
  lemma WordEnds(s: seq<char>, start: nat, i: nat)
    requires start <= i <= |s| && (start > 0 ==> s[start - 1] == ' ') && NoSpace(s[start..i])
    ensures ReverseWords(s[..i]) == ReverseWords(s[..start]) + Reverse(s[start..i])
    ensures i < |s| && s[i] == ' ' ==> ReverseWords(s[..i + 1]) == ReverseWords(s[..i]) + [' ']
  {
    if start == 0 {
      assert s[..i] == s[start..i];
      OneWord(s[..i]);
      var none: seq<char> := [];
      OneWord(none);
      assert s[..start] == none;
    } else {
      var head, tail := s[..start - 1], s[start..i];
      assert s[..i] == head + [' '] + tail;
      assert s[..start] == head + [' '];
      WordAfterSpace(head, tail);
    }
    if i < |s| && s[i] == ' ' {
      assert s[..i + 1] == s[..i] + [' '];
      TrailingSpace(s[..i]);
    }
  }

  /**
   * Pushes the characters of a word; at a space or the end, pops the word
   * into the result and copies the space.
   */
  method ReverseWordsInSentence(s: seq<char>) returns (r: seq<char>)
    ensures r == ReverseWords(s)
  {
    var stack := new CharStack(|s|);
    r := [];
    var start := 0;
    var i := 0;
    while i <= |s|
      invariant 0 <= start <= i <= |s| + 1
      invariant start > 0 ==> start <= |s| && s[start - 1] == ' '
      invariant i <= |s| ==> stack.items == s[start..i] && NoSpace(s[start..i]) && r == ReverseWords(s[..start])
      invariant i > |s| ==> r == ReverseWords(s)
      invariant stack.maxSize == |s|
      decreases |s| + 1 - i
    {
      if i < |s| && s[i] != ' ' {
        WordGrows(s, start, i);
        var _ := stack.Push(s[i]);
      } else {
        WordEnds(s, start, i);
        var word := PopAll(stack);
        r := r + word;
        if i < |s| {
          r := r + [' '];
          start := i + 1;
        } else {
          assert s[..i] == s;
        }
      }
      i := i + 1;
    }
  }

  // ---------------------------------------------------------------------
  // Palindromes

  /** The letters and digits of s, lower-cased, in order. */
  function Clean(s: seq<char>): seq<char> {
    if s == [] then []
    else Clean(s[..|s| - 1]) + (if IsAlnum(s[|s| - 1]) then [ToLower(s[|s| - 1])] else [])
  }

  /**
   * Builds the cleaned string, pushing each of its characters, then compares
   * it from the front with the characters popped from the back. Returns 1
   * exactly when the cleaned string reads the same both ways.
   */
  method IsPalindrome(s: seq<char>) returns (r: int)
    ensures r == 1 <==> Clean(s) == Reverse(Clean(s))
    ensures r == 0 || r == 1
  {
    var stack := new CharStack(|s|);
    var clean := [];
    var i := 0;
    while i < |s|
      invariant 0 <= i <= |s|
      invariant clean == Clean(s[..i]) && |clean| <= i
      invariant stack.items == clean && stack.maxSize == |s|
    {
      assert s[..i + 1][..i] == s[..i];
      if IsAlnum(s[i]) {
        var ch := ToLower(s[i]);
        clean := clean + [ch];
        var _ := stack.Push(ch);
      }
      i := i + 1;
    }
    assert s[..|s|] == s;
    var n := |clean|;
    i := 0;
    while i < n
      invariant 0 <= i <= n
      invariant stack.items == clean[..n - i]
      invariant forall j :: 0 <= j < i ==> clean[j] == clean[n - 1 - j]
    {
      var c := stack.Pop();
      if clean[i] != c {
        assert Reverse(clean)[i] != clean[i];
        return 0;
      }
      i := i + 1;
    }
    return 1;
  }
}
