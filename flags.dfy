/** Commands given to the bot through flags.

    When a flag named `done` exists, every flag is read as a command whose
    first whitespace-separated word says who handles it: a role, the
    markers `ok` and `err` left by an earlier pass, or `error`, which
    reports an intentional error. Handled flags are removed, errors are
    collected, and the `done` flag is replaced by an `ok` or `err` marker. */
module Flags {
  import opened Common
  import opened Roles

  /** Unicode's White_Space property, the separator `split_whitespace` uses. */
  predicate IsWhitespace(ch: char)
  {
    var n := ch as int;
    || 9 <= n <= 13 || n == 32 || n == 0x85 || n == 0xA0 || n == 0x1680
    || 0x2000 <= n <= 0x200A || n == 0x2028 || n == 0x2029 || n == 0x202F
    || n == 0x205F || n == 0x3000
  }

  /** The name without its leading whitespace. */
  function TrimStart(s: string): (r: string)
    ensures |r| <= |s| && r == s[|s| - |r|..]
    ensures forall i :: 0 <= i < |s| - |r| ==> IsWhitespace(s[i])
    ensures |r| > 0 ==> !IsWhitespace(r[0])
    decreases |s|
  {
    if |s| > 0 && IsWhitespace(s[0]) then TrimStart(s[1..]) else s
  }

  /** The longest prefix that holds no whitespace. */
  function Word(s: string): (r: string)
    ensures |r| <= |s| && r == s[..|r|]
    ensures forall i :: 0 <= i < |r| ==> !IsWhitespace(r[i])
    ensures |r| < |s| ==> IsWhitespace(s[|r|])
    decreases |s|
  {
    if |s| > 0 && !IsWhitespace(s[0]) then [s[0]] + Word(s[1..]) else []
  }

  /** `name.split_whitespace().next()`: the first word, if there is one. */
  function FirstToken(name: string): (r: Option<string>)
    ensures r.None? <==> forall i :: 0 <= i < |name| ==> IsWhitespace(name[i])
    ensures r.Some? ==> |r.value| > 0 && forall i :: 0 <= i < |r.value| ==> !IsWhitespace(r.value[i])
  {
    var rest := TrimStart(name);
    if |rest| == 0 then None else Some(Word(rest))
  }

  /** Leading whitespace is all that `TrimStart` removes. */
  lemma {:induction false} TrimStartOf(pre: string, rest: string)
    requires forall i :: 0 <= i < |pre| ==> IsWhitespace(pre[i])
    requires |rest| > 0 ==> !IsWhitespace(rest[0])
    ensures TrimStart(pre + rest) == rest
    decreases |pre|
  {
    if |pre| == 0 {
      assert pre + rest == rest;
    } else {
      assert (pre + rest)[1..] == pre[1..] + rest;
      TrimStartOf(pre[1..], rest);
    }
  }

  /** A word ends at the first whitespace after it. */
  lemma {:induction false} WordOf(w: string, post: string)
    requires forall i :: 0 <= i < |w| ==> !IsWhitespace(w[i])
    requires |post| > 0 ==> IsWhitespace(post[0])
    ensures Word(w + post) == w
    decreases |w|
  {
    if |w| == 0 {
      assert w + post == post;
    } else {
      assert (w + post)[1..] == w[1..] + post;
      WordOf(w[1..], post);
      assert w == [w[0]] + w[1..];
    }
  }

  /** A word surrounded by whitespace is the first token of the name. */
  lemma FirstTokenOf(pre: string, w: string, post: string)
    requires forall i :: 0 <= i < |pre| ==> IsWhitespace(pre[i])
    requires |w| > 0 && forall i :: 0 <= i < |w| ==> !IsWhitespace(w[i])
    requires |post| > 0 ==> IsWhitespace(post[0])
    ensures FirstToken(pre + w + post) == Some(w)
  {
    assert pre + w + post == pre + (w + post);
    TrimStartOf(pre, w + post);
    WordOf(w, post);
  }

  /** Suffix of the error a flag whose command is `error` reports. */
  const IntentionalError := "' - intentional error"

  /** The command table: what the flag `name` whose first word is
      `command` yields. */
  function Dispatch(command: string, name: string, roleFlag: (Role, string) -> Result<bool>): Result<bool>
  {
    match RoleNamed(command)
    case Some(role) => roleFlag(role, name)
    case None =>
      if command == "ok" || command == "err" then Ok(true)
      else if command == "error" then Err("'" + name + IntentionalError)
      else Ok(false)
  }

  /** What processing one flag yields: `None` when its name has no word
      (the flag is skipped), otherwise the command's result. */
  function Route(name: string, roleFlag: (Role, string) -> Result<bool>): Option<Result<bool>>
  {
    match FirstToken(name)
    case None => None
    case Some(command) => Some(Dispatch(command, name, roleFlag))
  }

  /** The command table on its own: a role's name hands the flag to that
      role, `ok` and `err` are handled, `error` reports an error naming the
      flag, and any other word leaves the flag alone. */
  lemma DispatchTable(w: string, name: string, roleFlag: (Role, string) -> Result<bool>)
    ensures RoleNamed(w).Some? ==> Dispatch(w, name, roleFlag) == roleFlag(RoleNamed(w).value, name)
    ensures w == "ok" || w == "err" ==> Dispatch(w, name, roleFlag) == Ok(true)
    ensures w == "error" ==> Dispatch(w, name, roleFlag) == Err("'" + name + IntentionalError)
    ensures RoleNamed(w).None? && w != "ok" && w != "err" && w != "error" ==>
      Dispatch(w, name, roleFlag) == Ok(false)
  {
    if w == "ok" || w == "err" || w == "error" {
      assert RoleNamed(w).None?;
    }
  }

  /** The routing table, for any surrounding whitespace: the flag is
      dispatched on its first word, as `DispatchTable` describes. */
  lemma RouteByFirstWord(pre: string, w: string, post: string, roleFlag: (Role, string) -> Result<bool>)
    requires forall i :: 0 <= i < |pre| ==> IsWhitespace(pre[i])
    requires |w| > 0 && forall i :: 0 <= i < |w| ==> !IsWhitespace(w[i])
    requires |post| > 0 ==> IsWhitespace(post[0])
    ensures Route(pre + w + post, roleFlag) == Some(Dispatch(w, pre + w + post, roleFlag))
  {
    FirstTokenOf(pre, w, post);
  }

  /** A flag whose name is only whitespace is skipped. */
  lemma BlankFlagSkipped(name: string, roleFlag: (Role, string) -> Result<bool>)
    requires forall i :: 0 <= i < |name| ==> IsWhitespace(name[i])
    ensures Route(name, roleFlag).None?
  {
  }

  predicate Handled(name: string, roleFlag: (Role, string) -> Result<bool>)
  {
    Route(name, roleFlag) == Some(Ok(true))
  }

  predicate Failed(name: string, roleFlag: (Role, string) -> Result<bool>)
  {
    Route(name, roleFlag).Some? && Route(name, roleFlag).value.Err?
  }

  /** The flags the pass removes, in order: exactly the handled ones. */
  function Removed(names: seq<string>, roleFlag: (Role, string) -> Result<bool>): (r: seq<string>)
    ensures |r| <= |names|
    ensures forall n :: n in r <==> n in names && Handled(n, roleFlag)
    decreases |names|
  {
    if |names| == 0 then []
    else
      var init, last := names[..|names| - 1], names[|names| - 1];
      assert forall n :: n in names <==> n in init || n == last;
      Removed(init, roleFlag) + (if Handled(last, roleFlag) then [last] else [])
  }

  /** The errors the pass collects, one per failing flag, in order. */
  function Errors(names: seq<string>, roleFlag: (Role, string) -> Result<bool>): (r: seq<string>)
    ensures |r| <= |names|
    ensures |r| == 0 <==> forall n :: n in names ==> !Failed(n, roleFlag)
    decreases |names|
  {
    if |names| == 0 then []
    else
      var init, last := names[..|names| - 1], names[|names| - 1];
      assert forall n :: n in names <==> n in init || n == last;
      Errors(init, roleFlag) + (if Failed(last, roleFlag) then [Route(last, roleFlag).value.msg] else [])
  }

  /** One more flag: the pass over `names[..i + 1]` is the pass over
      `names[..i]` followed by flag `i`. */
  lemma PassStep(names: seq<string>, i: nat, roleFlag: (Role, string) -> Result<bool>)
    requires i < |names|
    ensures Removed(names[..i + 1], roleFlag)
      == Removed(names[..i], roleFlag) + (if Handled(names[i], roleFlag) then [names[i]] else [])
    ensures Errors(names[..i + 1], roleFlag)
      == Errors(names[..i], roleFlag) + (if Failed(names[i], roleFlag) then [Route(names[i], roleFlag).value.msg] else [])
  {
    assert names[..i + 1][..i] == names[..i];
  }

  /** The loop over all flags: remove the handled ones and collect the
      errors; a failing flag does not stop the others. */
  method ProcessFlags(names: seq<string>, roleFlag: (Role, string) -> Result<bool>)
    returns (removed: seq<string>, errs: seq<string>)
    ensures removed == Removed(names, roleFlag)
    ensures errs == Errors(names, roleFlag)
  {
    removed, errs := [], [];
    for i := 0 to |names|
      invariant removed == Removed(names[..i], roleFlag)
      invariant errs == Errors(names[..i], roleFlag)
    {
      PassStep(names, i, roleFlag);
      var result := Route(names[i], roleFlag);
      if result.None? {
        continue;
      }
      match result.value
      case Ok(true) => removed := removed + [names[i]];
      case Ok(false) =>
      case Err(e) => errs := errs + [e];
    }
    assert names[..|names|] == names;
  }

  /** What the flag pass leaves behind. */
  datatype FlagReport = FlagReport(removed: seq<string>, errors: seq<string>, marker: string)

  /** The whole flag pass: nothing happens without a `done` flag; with one,
      the handled flags and then `done` are removed, and a marker flag
      named `ok` (no errors) or `err` is created in its place. */
  function FlagPass(names: seq<string>, roleFlag: (Role, string) -> Result<bool>): Option<FlagReport>
  {
    if "done" !in names then None
    else
      var errs := Errors(names, roleFlag);
      Some(FlagReport(Removed(names, roleFlag) + ["done"], errs, if |errs| == 0 then "ok" else "err"))
  }

  /** The pass runs exactly when `done` exists and reports success exactly
      when no flag failed. */
  lemma FlagPassOutcome(names: seq<string>, roleFlag: (Role, string) -> Result<bool>)
    ensures FlagPass(names, roleFlag).Some? <==> "done" in names
    ensures FlagPass(names, roleFlag).Some? ==>
      var rep := FlagPass(names, roleFlag).value;
      && (rep.marker == "ok" <==> forall n :: n in names ==> !Failed(n, roleFlag))
      && (rep.marker == "ok" || rep.marker == "err")
  {
  }

  /** The `done` flag is not a command itself: it is removed once, at the
      end of the pass. */
  lemma DoneRemovedLast(names: seq<string>, roleFlag: (Role, string) -> Result<bool>)
    requires "done" in names
    ensures var rep := FlagPass(names, roleFlag).value;
      && rep.removed[|rep.removed| - 1] == "done"
      && "done" !in rep.removed[..|rep.removed| - 1]
  {
    DoneIsNoCommand(roleFlag);
    var rep := FlagPass(names, roleFlag).value;
    assert rep.removed[..|rep.removed| - 1] == Removed(names, roleFlag);
  }

  /** The word `done` names no role and no marker: the flag is left alone. */
  lemma DoneIsNoCommand(roleFlag: (Role, string) -> Result<bool>)
    ensures Route("done", roleFlag) == Some(Ok(false))
  {
    FirstTokenOf([], "done", []);
    assert [] + "done" + [] == "done";
    assert RoleNamed("done").None?;
    DispatchTable("done", "done", roleFlag);
  }
}
