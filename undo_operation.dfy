/**
 * A text editor with undo and redo: every edit records the text it started
 * from on a bounded undo stack (the oldest record is evicted when the stack
 * is full) and empties the redo stack; undo restores the recorded text and
 * moves a record to the redo stack; redo re-applies insertions, deletions and
 * clears.
 *
 * The editor's behaviour is specified on values (`Editor` and the functions
 * `Inserted`, `Deleted`, ... below); the class `TextEditor` performs the same
 * steps in place and is proved to agree with them.
 */
module UndoOperation {
  const MaxTextSize: int := 1000
  const MaxOperations: int := 100

  datatype OperationType = Insert | Delete | Replace | Clear | Append

  /** An undo or redo record. */
  datatype Operation = Operation(
    id: int,
    kind: OperationType,
    position: int,
    originalText: string,
    newText: string,
    deletedText: string)

  /** The observable editor state; both stacks keep their top at index 0. */
  datatype Editor = Editor(
    content: string,
    undo: seq<Operation>,
    redo: seq<Operation>,
    nextOperationId: int,
    cursor: int)

  // ---------------------------------------------------------------------
  // Text splicing

  /** `p` forced into 0..|t|. */
  function Clamp(p: int, t: string): (r: nat)
    ensures r <= |t|
    ensures 0 <= p <= |t| ==> r == p
  {
    if p < 0 then 0 else if p > |t| then |t| else p
  }

  /** `t` with `cut` characters at `pos` replaced by `ins`, both bounds clamped to the text. */
  function Splice(t: string, pos: int, cut: int, ins: string): (r: string)
    ensures 0 <= pos && 0 <= cut && pos + cut <= |t| ==> r == t[..pos] + ins + t[pos + cut..]
  {
    var p := Clamp(pos, t);
    var q := Clamp(p + (if cut < 0 then 0 else cut), t);
    t[..p] + ins + t[q..]
  }

  /** The text an undo record's operation produced from the text it recorded. */
  function Apply(op: Operation): string {
    match op.kind
    case Insert => Splice(op.originalText, op.position, 0, op.newText)
    case Append => Splice(op.originalText, op.position, 0, op.newText)
    case Delete => Splice(op.originalText, op.position, |op.deletedText|, "")
    case Replace => Splice(op.originalText, op.position, |op.deletedText|, op.newText)
    case Clear => ""
  }

  // ---------------------------------------------------------------------
  // The bounded stack

  /** Pushes `op` on top; a stack already holding `MaxOperations` records loses its bottom one. */
  function Push(s: seq<Operation>, op: Operation): (r: seq<Operation>)
    ensures |s| <= MaxOperations ==> |r| <= MaxOperations
    ensures |r| >= 1 && r[0] == op
  {
    if |s| >= MaxOperations then [op] + s[..|s| - 1] else [op] + s
  }

  /** Pushing keeps everything but possibly the bottom record, in order, below the new top. */
  lemma PushKeepsOrder(s: seq<Operation>, op: Operation)
    requires |s| <= MaxOperations
    ensures |s| < MaxOperations ==> Push(s, op) == [op] + s && |Push(s, op)| == |s| + 1
    ensures |s| == MaxOperations ==> Push(s, op) == [op] + s[..|s| - 1] && |Push(s, op)| == MaxOperations
  {
  }

  /**
   * Each undo record reproduces, from the text it recorded, the text the
   * record above it recorded (the current content for the top record).
   */
  ghost predicate UndoChain(us: seq<Operation>, content: string) {
    && (us != [] ==> Apply(us[0]) == content)
    && forall i :: 0 < i < |us| ==> Apply(us[i]) == us[i - 1].originalText
  }

  ghost predicate Inv(e: Editor) {
    && |e.undo| <= MaxOperations
    && |e.redo| <= MaxOperations
    && UndoChain(e.undo, e.content)
  }

  lemma PushKeepsChain(us: seq<Operation>, op: Operation, content: string)
    requires UndoChain(us, op.originalText) && Apply(op) == content
    ensures UndoChain(Push(us, op), content)
  {
    var r := Push(us, op);
    forall i | 0 < i < |r|
      ensures Apply(r[i]) == r[i - 1].originalText
    {
      assert r[i] == us[i - 1];
      if i > 1 {
        assert r[i - 1] == us[i - 2];
      }
    }
  }

  // ---------------------------------------------------------------------
  // Edits

  /**
   * Inserts `text` at `position`. Refused when the position is outside
   * 0..|content| or the result would not fit the 1000-character buffer.
   */
  function Inserted(e: Editor, position: int, text: string): Editor {
    if position < 0 || position > |e.content| || |e.content| + |text| >= MaxTextSize then e
    else
      e.(content := e.content[..position] + text + e.content[position..],
         undo := Push(e.undo, Operation(e.nextOperationId, Insert, position, e.content, text, "")),
         redo := [],
         nextOperationId := e.nextOperationId + 1,
         cursor := position + |text|)
  }

  /** The length actually cut: `length` shortened so as not to run past the end. */
  function CutLength(content: string, position: int, length: int): int {
    if position + length > |content| then |content| - position else length
  }

  /**
   * Deletes up to `length` characters at `position`. Refused when the
   * position is outside 0..|content|-1 or the length is not positive.
   */
  function Deleted(e: Editor, position: int, length: int): Editor {
    if position < 0 || position >= |e.content| || length <= 0 then e
    else
      var n := CutLength(e.content, position, length);
      e.(content := e.content[..position] + e.content[position + n..],
         undo := Push(e.undo, Operation(e.nextOperationId, Delete, position, e.content, "",
                                        e.content[position..position + n])),
         redo := [],
         nextOperationId := e.nextOperationId + 1,
         cursor := position)
  }

  /** Whether a replacement is accepted by the position and length checks. */
  predicate ReplaceAccepted(e: Editor, position: int, length: int) {
    0 <= position < |e.content| && length > 0
  }

  /**
   * Replaces up to `length` characters at `position` by `newText`, with the
   * checks and shortening of `Deleted`.
   */
  function Replaced(e: Editor, position: int, length: int, newText: string): Editor {
    if !ReplaceAccepted(e, position, length) then e
    else
      var n := CutLength(e.content, position, length);
      e.(content := e.content[..position] + newText + e.content[position + n..],
         undo := Push(e.undo, Operation(e.nextOperationId, Replace, position, e.content, newText,
                                        e.content[position..position + n])),
         redo := [],
         nextOperationId := e.nextOperationId + 1,
         cursor := position + |newText|)
  }

  /** Appending is inserting at the end; it records an Insert, never an Append. */
  function Appended(e: Editor, text: string): Editor {
    Inserted(e, |e.content|, text)
  }

  /** Empties the text; refused when it is already empty. */
  function Cleared(e: Editor): Editor {
    if e.content == [] then e
    else
      e.(content := [],
         undo := Push(e.undo, Operation(e.nextOperationId, Clear, 0, e.content, "", e.content)),
         redo := [],
         nextOperationId := e.nextOperationId + 1,
         cursor := 0)
  }

  /**
   * The redo record undo pushes for `op`: it records the text being left and
   * carries over the operation's data (a Replace record's two texts swapped).
   */
  function RedoRecord(op: Operation, current: string): Operation {
    match op.kind
    case Insert => Operation(op.id, Insert, op.position, current, op.newText, "")
    case Delete => Operation(op.id, Delete, op.position, current, "", op.deletedText)
    case Replace => Operation(op.id, Replace, op.position, current, op.deletedText, op.newText)
    case Clear => Operation(op.id, Clear, 0, current, "", op.deletedText)
    case Append => Operation(op.id, Append, op.position, current, op.newText, "")
  }

  /** Undo: nothing to undo changes nothing; otherwise the top record's text comes back. */
  function Undone(e: Editor): Editor {
    if e.undo == [] then e
    else
      var op := e.undo[0];
      e.(undo := e.undo[1..],
         redo := Push(e.redo, RedoRecord(op, e.content)),
         content := op.originalText,
         cursor := op.position)
  }

  /**
   * Redo: nothing to redo changes nothing; an Insert, Delete or Clear record
   * is applied to the current text and recorded for undo; a Replace or Append
   * record is dropped without effect.
   */
  function Redone(e: Editor): Editor {
    if e.redo == [] then e
    else
      var r := e.redo[0];
      match r.kind
      case Insert =>
        var u := Operation(r.id, Insert, r.position, e.content, r.newText, "");
        e.(redo := e.redo[1..], undo := Push(e.undo, u), content := Apply(u),
           cursor := r.position + |r.newText|)
      case Delete =>
        var u := Operation(r.id, Delete, r.position, e.content, "", r.deletedText);
        e.(redo := e.redo[1..], undo := Push(e.undo, u), content := Apply(u), cursor := r.position)
      case Clear =>
        var u := Operation(r.id, Clear, 0, e.content, "", e.content);
        e.(redo := e.redo[1..], undo := Push(e.undo, u), content := [], cursor := 0)
      case Replace => e.(redo := e.redo[1..])
      case Append => e.(redo := e.redo[1..])
  }

  // ---------------------------------------------------------------------
  // Properties

  lemma InsertedKeepsInv(e: Editor, position: int, text: string)
    requires Inv(e)
    ensures Inv(Inserted(e, position, text))
  {
    if !(position < 0 || position > |e.content| || |e.content| + |text| >= MaxTextSize) {
      PushKeepsChain(e.undo, Operation(e.nextOperationId, Insert, position, e.content, text, ""),
                     Inserted(e, position, text).content);
    }
  }

  lemma DeletedKeepsInv(e: Editor, position: int, length: int)
    requires Inv(e)
    ensures Inv(Deleted(e, position, length))
  {
    if !(position < 0 || position >= |e.content| || length <= 0) {
      var n := CutLength(e.content, position, length);
      PushKeepsChain(e.undo, Operation(e.nextOperationId, Delete, position, e.content, "",
                                       e.content[position..position + n]),
                     Deleted(e, position, length).content);
    }
  }

  lemma ReplacedKeepsInv(e: Editor, position: int, length: int, newText: string)
    requires Inv(e)
    ensures Inv(Replaced(e, position, length, newText))
  {
    if ReplaceAccepted(e, position, length) {
      var n := CutLength(e.content, position, length);
      PushKeepsChain(e.undo, Operation(e.nextOperationId, Replace, position, e.content, newText,
                                       e.content[position..position + n]),
                     Replaced(e, position, length, newText).content);
    }
  }

  lemma ClearedKeepsInv(e: Editor)
    requires Inv(e)
    ensures Inv(Cleared(e))
  {
    if e.content != [] {
      PushKeepsChain(e.undo, Operation(e.nextOperationId, Clear, 0, e.content, "", e.content), []);
    }
  }

  lemma UndoneKeepsInv(e: Editor)
    requires Inv(e)
    ensures Inv(Undone(e))
  {
    if e.undo != [] {
      var rest := e.undo[1..];
      forall i | 0 < i < |rest|
        ensures Apply(rest[i]) == rest[i - 1].originalText
      {
        assert rest[i] == e.undo[i + 1];
        assert Apply(e.undo[i + 1]) == e.undo[i].originalText;
      }
    }
  }

  lemma RedoneKeepsInv(e: Editor)
    requires Inv(e)
    ensures Inv(Redone(e))
  {
    if e.redo != [] {
      var r := e.redo[0];
      match r.kind
      case Insert =>
        PushKeepsChain(e.undo, Operation(r.id, Insert, r.position, e.content, r.newText, ""),
                       Redone(e).content);
      case Delete =>
        PushKeepsChain(e.undo, Operation(r.id, Delete, r.position, e.content, "", r.deletedText),
                       Redone(e).content);
      case Clear =>
        PushKeepsChain(e.undo, Operation(r.id, Clear, 0, e.content, "", e.content), []);
      case Replace =>
      case Append =>
    }
  }

  /**
   * An accepted insertion grows the text by exactly the inserted text around
   * the insertion point, and an undo right after it restores the previous
   * text, puts the cursor back at the position and leaves one redo record.
   */
  lemma InsertThenUndo(e: Editor, position: int, text: string)
    requires Inserted(e, position, text) != e
    ensures 0 <= position <= |e.content|
    ensures var e' := Inserted(e, position, text);
      && |e'.content| == |e.content| + |text| < MaxTextSize
      && e'.content[..position] == e.content[..position]
      && e'.content[position..position + |text|] == text
      && e'.content[position + |text|..] == e.content[position..]
      && Undone(e').content == e.content
      && Undone(e').cursor == position
      && Undone(e').undo == e'.undo[1..]
      && |Undone(e').redo| == 1
  {
    var e' := Inserted(e, position, text);
    assert e'.content == e.content[..position] + text + e.content[position..];
    assert e'.content[..position] == e.content[..position];
    assert e'.content[position..position + |text|] == text;
  }

  /**
   * An accepted deletion removes exactly the characters from `position` to
   * the shortened end, and an undo right after it restores the previous text.
   */
  lemma DeleteThenUndo(e: Editor, position: int, length: int)
    requires Deleted(e, position, length) != e
    ensures 0 <= position < |e.content| && length > 0
    ensures var n := CutLength(e.content, position, length);
      var e' := Deleted(e, position, length);
      && 0 < n <= length && position + n <= |e.content|
      && e'.content == e.content[..position] + e.content[position + n..]
      && |e'.content| == |e.content| - n
      && Undone(e').content == e.content
      && Undone(e').cursor == position
      && |Undone(e').redo| == 1
  {
  }

  /** An accepted replacement followed by undo restores the previous text. */
  lemma ReplaceThenUndo(e: Editor, position: int, length: int, newText: string)
    requires ReplaceAccepted(e, position, length)
    ensures var n := CutLength(e.content, position, length);
      var e' := Replaced(e, position, length, newText);
      && 0 < n <= length && position + n <= |e.content|
      && e'.content == e.content[..position] + newText + e.content[position + n..]
      && Undone(e').content == e.content
      && Undone(e').cursor == position
  {
  }

  /** A clear of non-empty text followed by undo restores the text. */
  lemma ClearThenUndo(e: Editor)
    requires e.content != []
    ensures Cleared(e).content == []
    ensures Undone(Cleared(e)).content == e.content && Undone(Cleared(e)).cursor == 0
  {
  }

  /** A rejected edit changes nothing, not even the redo stack. */
  lemma RejectedEditsChangeNothing(e: Editor, position: int, length: int, text: string)
    ensures (position < 0 || position > |e.content| || |e.content| + |text| >= MaxTextSize)
              ==> Inserted(e, position, text) == e
    ensures (position < 0 || position >= |e.content| || length <= 0)
              ==> Deleted(e, position, length) == e && Replaced(e, position, length, text) == e
    ensures e.content == [] ==> Cleared(e) == e
    ensures e.undo == [] ==> Undone(e) == e
    ensures e.redo == [] ==> Redone(e) == e
  {
  }

  /**
   * Undo followed by redo gives the text back when the undone record is an
   * insertion, deletion or clear, and leaves a record of the same kind on top
   * of the undo stack.
   */
  lemma UndoThenRedo(e: Editor)
    requires Inv(e) && e.undo != []
    requires e.undo[0].kind == Insert || e.undo[0].kind == Delete || e.undo[0].kind == Clear
    ensures Redone(Undone(e)).content == e.content
    ensures Redone(Undone(e)).undo[0].kind == e.undo[0].kind
    ensures Redone(Undone(e)).undo[0].originalText == e.undo[0].originalText
    ensures Redone(Undone(e)).redo == e.redo[..|Undone(e).redo| - 1]
  {
    assert UndoChain(e.undo, e.content);
    assert Apply(e.undo[0]) == e.content;
  }

  /**
   * Undo followed by redo of a replacement does not re-apply it: the text
   * stays as it was before the replacement and the record is gone.
   */
  lemma UndoThenRedoLosesReplace(e: Editor)
    requires e.undo != [] && e.undo[0].kind == Replace
    ensures Redone(Undone(e)).content == e.undo[0].originalText
    ensures Redone(Undone(e)).undo == e.undo[1..]
  {
  }

  // ---------------------------------------------------------------------
  // The editor, updated in place

  class TextEditor {
    var content: string
    var undoStack: seq<Operation>
    var redoStack: seq<Operation>
    var nextOperationId: int
    var cursorPosition: int

    ghost function State(): Editor
      reads this
    {
      Editor(content, undoStack, redoStack, nextOperationId, cursorPosition)
    }

    ghost predicate Valid()
      reads this
    {
      Inv(State())
    }

    constructor ()
      ensures Valid()
      ensures State() == Editor([], [], [], 1, 0)
    {
      content := [];
      undoStack := [];
      redoStack := [];
      nextOperationId := 1;
      cursorPosition := 0;
    }

    /** Pops every redo record. */
    method ClearRedoStack()
      modifies this
      ensures State() == old(State()).(redo := [])
    {
      while redoStack != []
        invariant State() == old(State()).(redo := redoStack)
        decreases |redoStack|
      {
        redoStack := redoStack[1..];
      }
    }

    method InsertText(position: int, text: string)
      requires Valid()
      modifies this
      ensures Valid()
      ensures State() == Inserted(old(State()), position, text)
    {
      InsertedKeepsInv(State(), position, text);
      if position < 0 || position > |content| {
        return;
      }
      if |content| + |text| >= MaxTextSize {
        return;
      }
      var original := content;
      undoStack := Push(undoStack, Operation(nextOperationId, Insert, position, original, text, ""));
      nextOperationId := nextOperationId + 1;
      content := content[..position] + text + content[position..];
      cursorPosition := position + |text|;
      ClearRedoStack();
    }

    method DeleteText(position: int, length: int)
      requires Valid()
      modifies this
      ensures Valid()
      ensures State() == Deleted(old(State()), position, length)
    {
      DeletedKeepsInv(State(), position, length);
      if position < 0 || position >= |content| || length <= 0 {
        return;
      }
      var n := length;
      if position + n > |content| {
        n := |content| - position;
      }
      var original := content;
      var deleted := content[position..position + n];
      undoStack := Push(undoStack, Operation(nextOperationId, Delete, position, original, "", deleted));
      nextOperationId := nextOperationId + 1;
      content := content[..position] + content[position + n..];
      cursorPosition := position;
      ClearRedoStack();
    }

    method ReplaceText(position: int, length: int, newText: string)
      requires Valid()
      requires 0 <= position < |content| && length > 0 ==>
        |content| - CutLength(content, position, length) + |newText| < MaxTextSize
      modifies this
      ensures Valid()
      ensures State() == Replaced(old(State()), position, length, newText)
    {
      ReplacedKeepsInv(State(), position, length, newText);
      if position < 0 || position >= |content| || length <= 0 {
        return;
      }
      var n := length;
      if position + n > |content| {
        n := |content| - position;
      }
      var original := content;
      var replaced := content[position..position + n];
      undoStack := Push(undoStack, Operation(nextOperationId, Replace, position, original, newText, replaced));
      nextOperationId := nextOperationId + 1;
      var rest := content[..position] + content[position + n..];
      assert rest[..position] == original[..position] && rest[position..] == original[position + n..];
      content := rest[..position] + newText + rest[position..];
      cursorPosition := position + |newText|;
      ClearRedoStack();
    }

    method AppendText(text: string)
      requires Valid()
      modifies this
      ensures Valid()
      ensures State() == Appended(old(State()), text)
    {
      InsertText(|content|, text);
    }

    method ClearText()
      requires Valid()
      modifies this
      ensures Valid()
      ensures State() == Cleared(old(State()))
    {
      ClearedKeepsInv(State());
      if |content| == 0 {
        return;
      }
      var original := content;
      undoStack := Push(undoStack, Operation(nextOperationId, Clear, 0, original, "", original));
      nextOperationId := nextOperationId + 1;
      content := [];
      cursorPosition := 0;
      ClearRedoStack();
    }

    method UndoOperation()
      requires Valid()
      modifies this
      ensures Valid()
      ensures State() == Undone(old(State()))
    {
      UndoneKeepsInv(State());
      if undoStack == [] {
        return;
      }
      var op := undoStack[0];
      undoStack := undoStack[1..];
      var current := content;
      redoStack := Push(redoStack, RedoRecord(op, current));
      content := op.originalText;
      cursorPosition := op.position;
    }

    method RedoOperation()
      requires Valid()
      modifies this
      ensures Valid()
      ensures State() == Redone(old(State()))
    {
      RedoneKeepsInv(State());
      if redoStack == [] {
        return;
      }
      var r := redoStack[0];
      redoStack := redoStack[1..];
      match r.kind {
        case Insert =>
          var u := Operation(r.id, Insert, r.position, content, r.newText, "");
          undoStack := Push(undoStack, u);
          content := Splice(content, r.position, 0, r.newText);
          cursorPosition := r.position + |r.newText|;
        case Delete =>
          var u := Operation(r.id, Delete, r.position, content, "", r.deletedText);
          undoStack := Push(undoStack, u);
          content := Splice(content, r.position, |r.deletedText|, "");
          cursorPosition := r.position;
        case Clear =>
          var u := Operation(r.id, Clear, 0, content, "", content);
          undoStack := Push(undoStack, u);
          content := [];
          cursorPosition := 0;
        case Replace =>
        case Append =>
      }
    }
  }
}
