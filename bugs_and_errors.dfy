/** Chapter 8 (Bugs and Errors): an assertion that throws, a retrying
    multiplication, and a locked box that is unlocked around a body. */
module BugsAndErrors {
  import opened Wrappers

  /** `firstElement(array)`: throws on an empty array. */
  function FirstElement<T>(arr: seq<T>): (r: Result<T, string>)
    ensures r.Err? <==> |arr| == 0
    ensures r.Ok? ==> r.value == arr[0]
    ensures r.Err? ==> r.error == "firstElement called with []"
  {
    if |arr| == 0 then Err("firstElement called with []") else Ok(arr[0])
  }

  /** The exceptions of the retry exercise. */
  datatype Thrown = MultiplicatorUnitFailure(message: string) | OtherError(message: string)

  /** How a call ends: with a value, or by throwing. */
  datatype Completion = Normal(value: int) | Abrupt(error: Thrown)

  /** `primitiveMultiply(a, b)`: `lucky` stands for `Math.random() < 0.2`. */
  function PrimitiveMultiply(a: int, b: int, lucky: bool): (r: Completion)
    ensures r.Normal? <==> lucky
    ensures r.Normal? ==> r.value == a * b
    ensures r.Abrupt? ==> r.error == MultiplicatorUnitFailure("Klunk")
  {
    if lucky then Normal(a * b) else Abrupt(MultiplicatorUnitFailure("Klunk"))
  }

  /** `reliableMultiply(a, b)`: calls the primitive and, on a
      MultiplicatorUnitFailure, calls itself again; any other error is
      rethrown. `draws` are the random draws of the successive calls; None
      means the retries had not ended when the draws ran out, so only runs
      that finish are described (partial correctness). */
  function ReliableMultiply(a: int, b: int, draws: seq<bool>): (r: Option<Completion>)
    ensures r.Some? ==> r.value == Normal(a * b)
    ensures r.Some? <==> true in draws
  {
    if draws == [] then None
    else
      match PrimitiveMultiply(a, b, draws[0])
      case Normal(v) => Some(Normal(v))
      case Abrupt(error) =>
        if error.MultiplicatorUnitFailure? then
          var r := ReliableMultiply(a, b, draws[1..]);
          assert true in draws[1..] <==> true in draws;
          r
        else Some(Abrupt(error))
  }

  /** The retries end at the first lucky draw. */
  lemma {:induction false} ReliableMultiplyStopsAtFirstSuccess(a: int, b: int, unlucky: nat, rest: seq<bool>)
    ensures ReliableMultiply(a, b, seq(unlucky, _ => false) + [true] + rest) == Some(Normal(a * b))
  {
    if unlucky > 0 {
      var draws := seq(unlucky, _ => false) + [true] + rest;
      assert draws[1..] == seq(unlucky - 1, _ => false) + [true] + rest;
      ReliableMultiplyStopsAtFirstSuccess(a, b, unlucky - 1, rest);
    }
  }

  /** `const box = new class { locked = true; #content = []; ... }`. */
  class Box {
    var locked: bool
    var content: seq<string>

    constructor ()
      ensures locked && content == []
    {
      locked := true;
      content := [];
    }

    /** `unlock()`: only the lock changes. */
    method Unlock()
      modifies this`locked
      ensures !locked
    {
      locked := false;
    }

    /** `lock()`: only the lock changes. */
    method Lock()
      modifies this`locked
      ensures locked
    {
      locked := true;
    }

    /** `get content()`: throws "Locked!" while the box is locked. */
    method Content() returns (r: Result<seq<string>, string>)
      ensures r == if locked then Err("Locked!") else Ok(content)
    {
      if locked {
        return Err("Locked!");
      }
      return Ok(content);
    }

    /** `box.content.push(item)`: the getter hands out the box's own array,
        so the push lands in the box; while locked the getter throws first. */
    method PushContent(item: string) returns (thrown: Option<string>)
      modifies this`content
      ensures thrown == if old(locked) then Some("Locked!") else None
      ensures content == if old(locked) then old(content) else old(content) + [item]
    {
      var r := Content();
      match r
      case Err(message) =>
        thrown := Some(message);
      case Ok(_) =>
        content := content + [item];
        thrown := None;
    }
  }

  /** One statement of a body passed to `withBoxUnlocked`: push onto the
      box's content, or throw an error with a message. */
  datatype Step = Push(item: string) | Throw(message: string)

  /** Running a body on a box whose lock stays `locked`: the message of the
      exception it ends with (None for a normal return) and the box's
      content afterwards. */
  function RunSteps(locked: bool, content: seq<string>, body: seq<Step>): (Option<string>, seq<string>)
    decreases body
  {
    if body == [] then (None, content)
    else
      match body[0]
      case Push(item) =>
        if locked then (Some("Locked!"), content) else RunSteps(locked, content + [item], body[1..])
      case Throw(message) => (Some(message), content)
  }

  /** The message of the first Throw in a body. */
  function FirstThrow(body: seq<Step>): Option<string>
  {
    if body == [] then None
    else if body[0].Throw? then Some(body[0].message)
    else FirstThrow(body[1..])
  }

  /** The items a body pushes before its first Throw. */
  function PushedBeforeThrow(body: seq<Step>): seq<string>
  {
    if body == [] || body[0].Throw? then [] else [body[0].item] + PushedBeforeThrow(body[1..])
  }

  /** On an unlocked box a body runs up to its first Throw, and everything it
      pushed before that stays in the box. */
  lemma {:induction false} RunUnlocked(content: seq<string>, body: seq<Step>)
    ensures RunSteps(false, content, body) == (FirstThrow(body), content + PushedBeforeThrow(body))
    decreases body
  {
    if body != [] && body[0].Push? {
      RunUnlocked(content + [body[0].item], body[1..]);
      assert content + [body[0].item] + PushedBeforeThrow(body[1..]) == content + PushedBeforeThrow(body);
    } else {
      assert PushedBeforeThrow(body) == [];
      assert content + [] == content;
    }
  }

  /** On a locked box a body that touches the content throws "Locked!" at
      once: what `withBoxUnlocked` is there to prevent. */
  lemma RunLocked(content: seq<string>, item: string, body: seq<Step>)
    ensures RunSteps(true, content, [Push(item)] + body) == (Some("Locked!"), content)
  {
  }

  /** `body()`: runs the steps in order until one throws. */
  method RunBody(box: Box, body: seq<Step>) returns (thrown: Option<string>)
    modifies box`content
    ensures (thrown, box.content) == RunSteps(box.locked, old(box.content), body)
  {
    var k := 0;
    thrown := None;
    while k < |body|
      invariant 0 <= k <= |body|
      invariant RunSteps(box.locked, old(box.content), body) == RunSteps(box.locked, box.content, body[k..])
      invariant thrown == None
      decreases |body| - k
    {
      if body[k].Throw? {
        thrown := Some(body[k].message);
        return;
      }
      thrown := box.PushContent(body[k].item);
      if thrown.Some? {
        return;
      }
      k := k + 1;
    }
  }

  /** `withBoxUnlocked(body)`: unlocks a locked box, runs the body and, in a
      `finally`, locks the box again if it was locked before. The body's
      exception, if any, is passed on. */
  method WithBoxUnlocked(box: Box, body: seq<Step>) returns (thrown: Option<string>)
    modifies box
    ensures box.locked == old(box.locked)
    ensures (thrown, box.content) == RunSteps(false, old(box.content), body)
  {
    var wasLocked := box.locked;
    if wasLocked {
      box.Unlock();
    }
    thrown := RunBody(box, body);
    if wasLocked {
      box.Lock();
    }
  }

  /** The chapter's script: a body that adds a gold piece, then a body that
      throws; the box ends locked and keeps the gold piece. */
  method LockedBoxDemo() returns (locked: bool, content: seq<string>, thrown: Option<string>)
    ensures locked && content == ["gold piece"]
    ensures thrown == Some("Pirates on the horizon! Abort!")
  {
    var box := new Box();
    var first := WithBoxUnlocked(box, [Push("gold piece")]);
    thrown := WithBoxUnlocked(box, [Throw("Pirates on the horizon! Abort!")]);
    locked, content := box.locked, box.content;
  }
}
