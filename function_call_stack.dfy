/**
 * A simulated function call stack: each call pushes a frame with a fresh id
 * and empty parameter and local-variable lists (at most 100 frames); a
 * return pops the top frame. Variables are prepended to the top frame's
 * lists and looked up by name, most recent first.
 */
module FunctionCallStack {
  import opened Common

  const MaxStackFrames: int := 100
  const FirstFrameId: int := 1

  datatype VariableType = IntType | FloatType | CharType | StringType

  /** A variable's value; floating-point payloads are not modelled. */
  datatype Value = IntValue(i: int) | FloatValue | CharValue(c: char) | StringValue(s: string)

  datatype Variable = Variable(name: string, kind: VariableType, value: Value)

  datatype Frame = Frame(
    functionName: string,
    frameId: int,
    parameters: seq<Variable>,
    locals: seq<Variable>,
    returnAddress: int)

  /** Everything an observer sees; the top frame is at index 0. */
  datatype CallStack = CallStack(
    frames: seq<Frame>,
    frameCount: int,
    nextFrameId: int,
    level: int)

  function TypeOf(v: Value): VariableType {
    match v
    case IntValue(_) => IntType
    case FloatValue => FloatType
    case CharValue(_) => CharType
    case StringValue(_) => StringType
  }

  /** The value a fresh variable of the given type starts with. */
  function DefaultValue(t: VariableType): (v: Value)
    ensures TypeOf(v) == t
  {
    match t
    case IntType => IntValue(0)
    case FloatType => FloatValue
    case CharType => CharValue('\0')
    case StringType => StringValue("")
  }

  /** The list with a fresh variable in front. */
  function AddVariable(vars: seq<Variable>, name: string, t: VariableType): seq<Variable> {
    [Variable(name, t, DefaultValue(t))] + vars
  }

  /** Index of the first variable with this name, or |vars| when there is none. */
  function FirstNamed(vars: seq<Variable>, name: string): (k: nat)
    ensures k <= |vars|
    ensures forall i :: 0 <= i < k ==> vars[i].name != name
    ensures k < |vars| ==> vars[k].name == name
  {
    if vars == [] then 0 else if vars[0].name == name then 0 else 1 + FirstNamed(vars[1..], name)
  }

  /** The first variable with the name gets the value; an unknown name changes nothing. */
  function SetNamed(vars: seq<Variable>, name: string, value: Value): seq<Variable> {
    var k := FirstNamed(vars, name);
    if k < |vars| then vars[k := vars[k].(value := value)] else vars
  }

  // ---------------------------------------------------------------------
  // The stack operations on values

  function Pushed(st: CallStack, functionName: string, returnAddress: int): CallStack {
    if st.frameCount >= MaxStackFrames then st
    else
      st.(frames := [Frame(functionName, st.nextFrameId, [], [], returnAddress)] + st.frames,
          frameCount := st.frameCount + 1,
          nextFrameId := st.nextFrameId + 1,
          level := st.level + 1)
  }

  function Popped(st: CallStack): CallStack {
    if st.frames == [] then st
    else st.(frames := st.frames[1..], frameCount := st.frameCount - 1, level := st.level - 1)
  }

  /** A new parameter with its value goes in front of the top frame's parameters. */
  function ParameterAdded(st: CallStack, name: string, t: VariableType, value: Value): CallStack {
    if st.frames == [] then st
    else
      var top := st.frames[0];
      var params := AddVariable(top.parameters, name, t);
      st.(frames := st.frames[0 := top.(parameters := SetNamed(params, name, value))])
  }

  function LocalAdded(st: CallStack, name: string, t: VariableType): CallStack {
    if st.frames == [] then st
    else
      var top := st.frames[0];
      st.(frames := st.frames[0 := top.(locals := AddVariable(top.locals, name, t))])
  }

  function LocalSet(st: CallStack, name: string, value: Value): CallStack {
    if st.frames == [] then st
    else
      var top := st.frames[0];
      st.(frames := st.frames[0 := top.(locals := SetNamed(top.locals, name, value))])
  }

  /**
   * The invariant: frame count and execution level both equal the number of
   * frames, at most 100; frame ids are at least 1, below the next id, and
   * strictly decrease from the top down (never reused).
   */
  ghost predicate Inv(st: CallStack) {
    && st.frameCount == |st.frames| == st.level
    && st.frameCount <= MaxStackFrames
    && st.nextFrameId >= FirstFrameId
    && (forall i :: 0 <= i < |st.frames| ==> FirstFrameId <= st.frames[i].frameId < st.nextFrameId)
    && (forall i, j :: 0 <= i < j < |st.frames| ==> st.frames[i].frameId > st.frames[j].frameId)
  }

  // ---------------------------------------------------------------------
  // Properties

  /** A push keeps the invariant: the new top frame has the largest id. */
  lemma PushKeepsInv(st: CallStack, f: string, r: int)
    requires Inv(st)
    ensures Inv(Pushed(st, f, r))
  {
    if st.frameCount < MaxStackFrames {
      var p := Pushed(st, f, r);
      forall i, j | 0 <= i < j < |p.frames|
        ensures p.frames[i].frameId > p.frames[j].frameId
      {
        assert p.frames[j] == st.frames[j - 1];
        if i > 0 {
          assert p.frames[i] == st.frames[i - 1];
        }
      }
    }
  }

  lemma PopKeepsInv(st: CallStack)
    requires Inv(st)
    ensures Inv(Popped(st))
  {
    if st.frames != [] {
      var q := Popped(st);
      assert forall i :: 0 <= i < |q.frames| ==> q.frames[i] == st.frames[i + 1];
    }
  }

  /** Replacing the top frame by one with the same id keeps the invariant. */
  lemma TopChangeKeepsInv(st: CallStack, top: Frame)
    requires Inv(st) && st.frames != [] && top.frameId == st.frames[0].frameId
    ensures Inv(st.(frames := st.frames[0 := top]))
  {
    var q := st.(frames := st.frames[0 := top]);
    assert forall i :: 0 <= i < |q.frames| ==> q.frames[i].frameId == st.frames[i].frameId;
  }

  /** A successful call pushes a frame with the next id and empty lists; 100 frames refuse it, changing nothing. */
  lemma PushFrame(st: CallStack, f: string, r: int)
    requires Inv(st)
    ensures st.frameCount >= MaxStackFrames <==> Pushed(st, f, r) == st
    ensures st.frameCount < MaxStackFrames ==>
      var p := Pushed(st, f, r);
      && p.frames[0] == Frame(f, st.nextFrameId, [], [], r)
      && p.frames[1..] == st.frames
      && p.nextFrameId == st.nextFrameId + 1
      && (forall i :: 1 <= i < |p.frames| ==> p.frames[i].frameId < p.frames[0].frameId)
  {
  }

  /** A push followed by a pop gives the previous stack back, apart from the spent frame id. */
  lemma PushThenPop(st: CallStack, f: string, r: int)
    requires Inv(st) && st.frameCount < MaxStackFrames
    ensures Popped(Pushed(st, f, r)) == st.(nextFrameId := st.nextFrameId + 1)
  {
  }

  /** Popping an empty stack changes nothing; otherwise the top frame goes and the rest stays. */
  lemma PopFrame(st: CallStack)
    requires Inv(st)
    ensures st.frames == [] ==> Popped(st) == st
    ensures st.frames != [] ==> Popped(st).frames == st.frames[1..] && Popped(st).frameCount == st.frameCount - 1
  {
  }

  /** A lookup after adding a variable finds the new one, even when the name was already in use. */
  lemma {:induction false} FindFindsNewest(vars: seq<Variable>, name: string, t: VariableType)
    ensures FirstNamed(AddVariable(vars, name, t), name) == 0
    ensures AddVariable(vars, name, t)[0] == Variable(name, t, DefaultValue(t))
  {
  }

  /** After adding a parameter, the top frame's first parameter is it, carrying the given value. */
  lemma AddParameterSetsValue(st: CallStack, name: string, t: VariableType, v: Value)
    requires st.frames != []
    ensures var st' := ParameterAdded(st, name, t, v);
      && st'.frames[0].parameters == [Variable(name, t, v)] + st.frames[0].parameters
      && st'.frames[0].locals == st.frames[0].locals
      && st'.frames[1..] == st.frames[1..]
  {
    var params := AddVariable(st.frames[0].parameters, name, t);
    assert FirstNamed(params, name) == 0;
  }

  /** With no frame, or an unknown local name, nothing changes. */
  lemma NoFrameOrUnknownName(st: CallStack, name: string, t: VariableType, v: Value)
    ensures st.frames == [] ==>
      ParameterAdded(st, name, t, v) == st && LocalAdded(st, name, t) == st && LocalSet(st, name, v) == st
    ensures st.frames != [] && (forall i :: 0 <= i < |st.frames[0].locals| ==> st.frames[0].locals[i].name != name)
      ==> LocalSet(st, name, v) == st
  {
    if st.frames != [] && (forall i :: 0 <= i < |st.frames[0].locals| ==> st.frames[0].locals[i].name != name) {
      assert FirstNamed(st.frames[0].locals, name) == |st.frames[0].locals|;
      assert st.frames[0 := st.frames[0]] == st.frames;
    }
  }

  // ---------------------------------------------------------------------
  // The stack, updated in place

  /** The lookup loop: the first variable with the name, or None. */
  method FindVariable(vars: seq<Variable>, name: string) returns (k: Option<nat>)
    ensures k.None? <==> forall i :: 0 <= i < |vars| ==> vars[i].name != name
    ensures k.Some? ==> k.value == FirstNamed(vars, name) < |vars|
  {
    var i := 0;
    while i < |vars|
      invariant 0 <= i <= |vars|
      invariant forall j :: 0 <= j < i ==> vars[j].name != name
    {
      if vars[i].name == name {
        return Some(i);
      }
      i := i + 1;
    }
    return None;
  }

  class FunctionCallStack {
    var frames: seq<Frame>
    var frameCount: int
    var nextFrameId: int
    var currentExecutionLevel: int

    ghost function State(): CallStack
      reads this
    {
      CallStack(frames, frameCount, nextFrameId, currentExecutionLevel)
    }

    ghost predicate Valid()
      reads this
    {
      Inv(State())
    }

    constructor ()
      ensures Valid() && State() == CallStack([], 0, FirstFrameId, 0)
    {
      frames := [];
      frameCount := 0;
      nextFrameId := FirstFrameId;
      currentExecutionLevel := 0;
    }

    method PushFunctionCall(functionName: string, returnAddress: int) returns (frame: Option<Frame>)
      requires Valid()
      modifies this
      ensures Valid()
      ensures State() == Pushed(old(State()), functionName, returnAddress)
      ensures frame.None? <==> old(frameCount) >= MaxStackFrames
      ensures frame.Some? ==> frame.value == frames[0]
    {
      PushKeepsInv(State(), functionName, returnAddress);
      if frameCount >= MaxStackFrames {
        return None;
      }
      var f := Frame(functionName, nextFrameId, [], [], returnAddress);
      nextFrameId := nextFrameId + 1;
      frames := [f] + frames;
      frameCount := frameCount + 1;
      currentExecutionLevel := currentExecutionLevel + 1;
      frame := Some(f);
    }

    method PopFunctionCall() returns (frame: Option<Frame>)
      requires Valid()
      modifies this
      ensures Valid()
      ensures State() == Popped(old(State()))
      ensures frame.None? <==> old(frames) == []
      ensures frame.Some? ==> frame.value == old(frames[0])
    {
      PopKeepsInv(State());
      if frames == [] {
        return None;
      }
      var f := frames[0];
      frames := frames[1..];
      frameCount := frameCount - 1;
      currentExecutionLevel := currentExecutionLevel - 1;
      frame := Some(f);
    }

    /** Adds a parameter to the top frame and gives it the value (which must be of the declared type). */
    method AddParameter(name: string, t: VariableType, value: Value)
      requires Valid()
      requires TypeOf(value) == t
      modifies this
      ensures Valid()
      ensures State() == ParameterAdded(old(State()), name, t, value)
    {
      if frames == [] {
        return;
      }
      var top := frames[0];
      var params := AddVariable(top.parameters, name, t);
      var k := FindVariable(params, name);
      if k.Some? {
        params := params[k.value := params[k.value].(value := value)];
      }
      TopChangeKeepsInv(State(), top.(parameters := params));
      frames := frames[0 := top.(parameters := params)];
    }

    method AddLocalVariable(name: string, t: VariableType)
      requires Valid()
      modifies this
      ensures Valid()
      ensures State() == LocalAdded(old(State()), name, t)
    {
      if frames == [] {
        return;
      }
      var top := frames[0];
      TopChangeKeepsInv(State(), top.(locals := AddVariable(top.locals, name, t)));
      frames := frames[0 := top.(locals := AddVariable(top.locals, name, t))];
    }

    /** Sets the top frame's first local with the name (the value must be of that variable's type). */
    method SetLocalVariableValue(name: string, value: Value)
      requires Valid()
      requires frames != [] && FirstNamed(frames[0].locals, name) < |frames[0].locals| ==>
        TypeOf(value) == frames[0].locals[FirstNamed(frames[0].locals, name)].kind
      modifies this
      ensures Valid()
      ensures State() == LocalSet(old(State()), name, value)
    {
      if frames == [] {
        return;
      }
      var top := frames[0];
      var k := FindVariable(top.locals, name);
      if k.Some? {
        var top' := top.(locals := top.locals[k.value := top.locals[k.value].(value := value)]);
        TopChangeKeepsInv(State(), top');
        frames := frames[0 := top'];
      } else {
        assert frames[0 := top] == frames;
      }
    }
  }
}
