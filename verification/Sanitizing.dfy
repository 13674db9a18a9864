/** The clean-up a window goes through before the compactor sees it. */
module Sanitizing {
  import opened Messages

  /** Ids some assistant message asks for. */
  function Expected(w: seq<Message>): set<string> {
    if w == [] then {}
    else Expected(w[..|w| - 1]) + if Calls(w[|w| - 1]) then CallIds(w[|w| - 1].toolCalls) else {}
  }

  /** Ids some tool message answers. */
  function ToolIds(w: seq<Message>): set<string> {
    if w == [] then {}
    else ToolIds(w[..|w| - 1]) + if w[|w| - 1].role == Tool then {w[|w| - 1].toolCallId} else {}
  }

  function Incomplete(w: seq<Message>): set<string> { Expected(w) - ToolIds(w) }

  datatype Pass = Pass(out: seq<Message>, dropping: bool)

  /** One message of the second pass; `dropping` is set behind an assistant message that lost its calls. */
  function SanitizeOne(p: Pass, m: Message, incomplete: set<string>): Pass {
    if Calls(m) then
      if CallIds(m.toolCalls) !! incomplete then Pass(p.out + [m], false)
      else Pass(p.out + [m.(toolCalls := [])], true)
    else if m.role == Tool then
      if m.toolCallId in incomplete || p.dropping then p else Pass(p.out + [m], p.dropping)
    else Pass(p.out + [m], false)
  }

  function SanitizePass(w: seq<Message>, incomplete: set<string>): Pass {
    if w == [] then Pass([], false) else SanitizeOne(SanitizePass(w[..|w| - 1], incomplete), w[|w| - 1], incomplete)
  }

  function Sanitize(w: seq<Message>): seq<Message> { SanitizePass(w, Incomplete(w)).out }

  method SanitizeWindow(w: seq<Message>) returns (out: seq<Message>)
    ensures out == Sanitize(w)
  {
    if |w| == 0 {
      return w;
    }
    // the program walks backwards here, which builds the same table
    var expected: set<string> := {};
    for i := 0 to |w|
      invariant expected == Expected(w[..i])
    {
      assert w[..i + 1][..i] == w[..i];
      if Calls(w[i]) {
        expected := expected + CallIds(w[i].toolCalls);
      }
    }
    var incomplete := expected;
    for i := 0 to |w|
      invariant incomplete == expected - ToolIds(w[..i])
    {
      assert w[..i + 1][..i] == w[..i];
      if w[i].role == Tool {
        incomplete := incomplete - {w[i].toolCallId};
      }
    }
    assert w[..|w|] == w;
    out := [];
    var dropping := false;
    for i := 0 to |w|
      invariant Pass(out, dropping) == SanitizePass(w[..i], incomplete)
    {
      assert w[..i + 1][..i] == w[..i];
      var m := w[i];
      if Calls(m) {
        if CallIds(m.toolCalls) !! incomplete {
          out, dropping := out + [m], false;
        } else {
          out, dropping := out + [m.(toolCalls := [])], true;
        }
      } else if m.role == Tool {
        if !(m.toolCallId in incomplete || dropping) {
          out := out + [m];
        }
      } else {
        out, dropping := out + [m], false;
      }
    }
  }
}
