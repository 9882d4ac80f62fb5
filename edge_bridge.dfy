/** The Edge (WebView) browser window of the FFI layer
    (ffi/src/browser_window/edge.cpp): how a script is wrapped before it is
    evaluated and how its answer is decoded, and how a message sent with
    `window.external.notify` is split into a command and its arguments.

    The conversions between wide and narrow strings (`winrt::to_hstring`,
    `winrt::to_string`) are taken to be the identity. */
module EdgeBridge {
  import opened Wrappers
  import opened Strings
  import opened Handles
  import Errors

  // ---------------------------------------------------------------------
  // Script notifications

  /** The character `invoke_extern` puts between the command and each
      argument, `String.fromCharCode(3)`. */
  const Delimiter: char := '\U{3}'

  /** The message `window.invoke_extern(...cmd)` sends:
      `cmd.join(String.fromCharCode(3))`. Parts free of the delimiter are
      what splitting it gives back, and parts free of NUL give a message
      free of NUL. */
  function InvokeExternMessage(cmd: seq<string>): (m: string)
    ensures |cmd| > 0 && (forall i :: 0 <= i < |cmd| ==> Delimiter !in cmd[i]) ==> Split(m, Delimiter) == cmd
    ensures (forall i :: 0 <= i < |cmd| ==> '\0' !in cmd[i]) ==> '\0' !in m
  {
    if |cmd| > 0 && (forall i :: 0 <= i < |cmd| ==> Delimiter !in cmd[i]) then
      SplitJoin(cmd, Delimiter);
      JoinNoNul(cmd);
      Join(cmd, Delimiter)
    else
      JoinNoNul(cmd);
      Join(cmd, Delimiter)
  }

  lemma JoinNoNul(cmd: seq<string>)
    ensures (forall i :: 0 <= i < |cmd| ==> '\0' !in cmd[i]) ==> '\0' !in Join(cmd, Delimiter)
  {
    if forall i :: 0 <= i < |cmd| ==> '\0' !in cmd[i] {
      JoinWithout(cmd, Delimiter, '\0');
    }
  }

  /** What `c_str()` hands to a `const char*` parameter: the characters of
      the string and a NUL after them. */
  function CStr(s: string): (c: string)
    ensures Errors.IsCString(c)
  {
    s + ['\0']
  }

  /** The text a `const char*` made by `c_str()` stands for: the string up
      to its first NUL, which is all of it when it holds none. */
  function CText(s: string): (t: string)
    ensures '\0' !in t
    ensures |t| <= |s| && t == s[..|t|]
    ensures |t| < |s| ==> s[|t|] == '\0'
  {
    var t := Errors.Text(CStr(s));
    assert t + ['\0'] == CStr(s)[..|t| + 1];
    assert t == CStr(s)[..|t|];
    t
  }

  /** A string without NUL passes through `c_str()` whole. */
  lemma CTextWhole(s: string)
    requires '\0' !in s
    ensures CText(s) == s
  {
  }

  /** The fields `std::getline` reads from a stream with `'\x03'` as the
      delimiter: every piece between delimiters, except that a last piece
      that is empty is not read (the stream is at its end). No field holds
      the delimiter, and the fields glued back with it are the text, but
      for a final delimiter. */
  function GetlineFields(s: string): (fields: seq<string>)
    ensures forall i :: 0 <= i < |fields| ==> Delimiter !in fields[i]
    ensures Join(fields, Delimiter) == s || Join(fields, Delimiter) + [Delimiter] == s
    ensures |fields| < |Split(s, Delimiter)| <==> Split(s, Delimiter)[|Split(s, Delimiter)| - 1] == ""
  {
    var pieces := Split(s, Delimiter);
    JoinSplit(s, Delimiter);
    if pieces[|pieces| - 1] == "" then
      if |pieces| > 1 then
        DropEmptyLast(pieces);
        pieces[..|pieces| - 1]
      else []
    else pieces
  }

  /** Dropping an empty last piece drops the delimiter before it. */
  lemma DropEmptyLast(pieces: seq<string>)
    requires |pieces| > 1 && pieces[|pieces| - 1] == ""
    ensures Join(pieces[..|pieces| - 1], Delimiter) + [Delimiter] == Join(pieces, Delimiter)
  {
    assert pieces == pieces[..|pieces| - 1] + [""];
    JoinSnoc(pieces[..|pieces| - 1], "", Delimiter);
  }

  /** `parse_args` over the `const char*` it is given: the loop of
      `getline` calls reads the stream one character at a time, and the
      stream holds the text up to the first NUL. */
  method ParseArgs(argsString: string) returns (stk: seq<string>)
    requires Errors.IsCString(argsString)
    ensures stk == GetlineFields(Errors.Text(argsString))
  {
    ghost var n := Errors.Strlen(argsString);
    stk := [];
    var tmp := "";
    var i := 0;
    while argsString[i] != '\0'
      invariant 0 <= i <= n
      invariant stk + [tmp] == Split(argsString[..i], Delimiter)
      decreases n - i
    {
      SplitSnoc(argsString[..i], argsString[i], Delimiter);
      assert argsString[..i + 1] == argsString[..i] + [argsString[i]];
      if argsString[i] == Delimiter {
        stk := stk + [tmp];
        tmp := "";
      } else {
        tmp := tmp + [argsString[i]];
      }
      i := i + 1;
    }
    assert argsString[..i] == Errors.Text(argsString);
    if tmp != "" {
      stk := stk + [tmp];
    }
  }

  /** `args_slices`: one slice per argument, in order, each with the
      argument's length and characters. */
  method ArgsSlices(args: seq<string>) returns (vec: seq<CStrSlice>)
    ensures |vec| == |args|
    ensures forall i :: 0 <= i < |args| ==> vec[i] == SliceOf(args[i])
  {
    vec := [];
    var i := 0;
    while i < |args|
      invariant 0 <= i <= |args|
      invariant |vec| == i
      invariant forall k :: 0 <= k < i ==> vec[k] == SliceOf(args[k])
    {
      vec := vec + [SliceOf(args[i])];
      i := i + 1;
    }
  }

  /** The arguments of `external_handler`: the command, the slices after
      it and their number. */
  datatype Notification = Notification(cmd: CStrSlice, args: seq<CStrSlice>, argCount: nat)

  /** The `ScriptNotify` handler as written: the message goes to
      `parse_args` through `c_str()`, `slices[0]` is the command and
      `slices.size() - 1` the number of arguments. When no field was read,
      `slices[0]` is out of range (`None`). */
  method ScriptNotifyAsWritten(message: string) returns (n: Option<Notification>)
    ensures n.None? <==> GetlineFields(CText(message)) == []
    ensures n.Some? ==> NotificationOf(n.value, GetlineFields(CText(message)))
  {
    var parsed := ParseArgs(CStr(message));
    var slices := ArgsSlices(parsed);
    if |slices| == 0 {
      return None;
    }
    n := Some(Notification(slices[0], slices[1..], |slices| - 1));
  }

  /** The notification carries the first field as the command and the
      others, in order, as its arguments. */
  ghost predicate NotificationOf(n: Notification, fields: seq<string>)
  {
    && |fields| > 0
    && n.cmd == SliceOf(fields[0])
    && n.argCount == |n.args| == |fields| - 1
    && forall i :: 0 <= i < |n.args| ==> n.args[i] == SliceOf(fields[i + 1])
  }

  /** The `ScriptNotify` handler with the empty last field kept: every
      field of the text before the first NUL is delivered, so there is
      always a command. */
  method ScriptNotify(message: string) returns (n: Notification)
    ensures NotificationOf(n, Split(CText(message), Delimiter))
  {
    var parsed := ParseArgs(CStr(message));
    var text := CText(message);
    LastPieceEmpty(text);
    FieldsRestored(text);
    if |text| == 0 || text[|text| - 1] == Delimiter {
      parsed := parsed + [""];
    }
    assert parsed == Split(text, Delimiter);
    var slices := ArgsSlices(parsed);
    n := Notification(slices[0], slices[1..], |slices| - 1);
  }

  /** The last piece of a split is empty exactly when the text is empty or
      ends with the delimiter. */
  lemma LastPieceEmpty(s: string)
    ensures var p := Split(s, Delimiter);
      p[|p| - 1] == "" <==> |s| == 0 || s[|s| - 1] == Delimiter
  {
    if |s| > 0 {
      var init := s[..|s| - 1];
      assert s == init + [s[|s| - 1]];
      SplitSnoc(init, s[|s| - 1], Delimiter);
    }
  }

  /** Putting back the empty last piece that `getline` drops gives every
      piece of the split. */
  lemma FieldsRestored(s: string)
    ensures var p := Split(s, Delimiter);
      GetlineFields(s) + (if p[|p| - 1] == "" then [""] else []) == p
  {
    var p := Split(s, Delimiter);
    if p[|p| - 1] == "" {
      assert p == p[..|p| - 1] + [""];
    }
  }

  /** The handler as written reads no field exactly when the message is
      empty or starts with NUL; `invoke_extern()` with no arguments sends
      the empty message. */
  lemma NoFieldsAsWritten(message: string)
    ensures GetlineFields(CText(message)) == [] <==> |message| == 0 || message[0] == '\0'
    ensures GetlineFields(CText(InvokeExternMessage([]))) == []
  {
    var t := CText(message);
    var p := Split(t, Delimiter);
    if GetlineFields(t) == [] {
      assert |p| == 1 && p[0] == "";
      JoinSplit(t, Delimiter);
    }
    if |t| > 0 {
      assert t[0] == message[0];
    }
  }

  /** A call `invoke_extern(...cmd)` whose parts hold neither the
      delimiter nor NUL reaches the handler as written with its parts
      intact exactly when the last part is not empty: a trailing empty
      argument is dropped. */
  lemma InvokeExternAsWritten(cmd: seq<string>)
    requires |cmd| > 0
    requires forall i :: 0 <= i < |cmd| ==> Delimiter !in cmd[i]
    requires forall i :: 0 <= i < |cmd| ==> '\0' !in cmd[i]
    ensures GetlineFields(CText(InvokeExternMessage(cmd))) == cmd <==> cmd[|cmd| - 1] != ""
    ensures cmd[|cmd| - 1] == "" ==> GetlineFields(CText(InvokeExternMessage(cmd))) == cmd[..|cmd| - 1]
  {
    CTextWhole(InvokeExternMessage(cmd));
  }

  /** With the empty last field kept, every such call is delivered as it
      was made. */
  lemma InvokeExternDelivered(cmd: seq<string>)
    requires |cmd| > 0
    requires forall i :: 0 <= i < |cmd| ==> Delimiter !in cmd[i]
    requires forall i :: 0 <= i < |cmd| ==> '\0' !in cmd[i]
    ensures Split(CText(InvokeExternMessage(cmd)), Delimiter) == cmd
  {
    CTextWhole(InvokeExternMessage(cmd));
  }

  /** A part holding NUL cuts the message there: `invoke_extern("a\0b",
      "c")` reaches the handler, as written or with the last field kept,
      as the single command "a" with no arguments. */
  lemma NulCutsArguments()
    ensures InvokeExternMessage(["a\0b", "c"]) == "a\0b\U{3}c"
    ensures CText(InvokeExternMessage(["a\0b", "c"])) == "a"
    ensures GetlineFields(CText(InvokeExternMessage(["a\0b", "c"]))) == ["a"]
    ensures Split(CText(InvokeExternMessage(["a\0b", "c"])), Delimiter) == ["a"]
  {
    NulMessageText();
    SplitNoSeparator("a", Delimiter);
  }

  /** The message of `invoke_extern("a\0b", "c")` and its text up to the NUL. */
  lemma NulMessageText()
    ensures InvokeExternMessage(["a\0b", "c"]) == "a\0b\U{3}c"
    ensures CText("a\0b\U{3}c") == "a"
  {
    var m := "a\0b\U{3}c";
    assert m == "a" + ['\0'] + "b\U{3}c";
    Errors.TextOfTerminated("a", "b\U{3}c\0");
    assert CStr(m) == "a" + ['\0'] + "b\U{3}c\0";
  }

  // ---------------------------------------------------------------------
  // Script evaluation

  const WrapPrefix: string := "(function(){try{return 'ok:'+("
  const WrapSuffix: string := ")}catch (e){return 'err:'+e.toString()}})()"

  /** The script `bw_BrowserWindow_evalJs` builds: the given code inside
      a function that returns "ok:" and its value, or "err:" and the
      exception it throws. The code sits whole between the two fixed
      parts, and a code without NUL gives a script without NUL. */
  function WrapScript(js: string): (w: string)
    ensures |w| == |WrapPrefix| + |js| + |WrapSuffix|
    ensures w[..|WrapPrefix|] == WrapPrefix && w[|WrapPrefix|..|WrapPrefix| + |js|] == js
    ensures '\0' !in js ==> '\0' !in w
  {
    var w := WrapPrefix + js + WrapSuffix;
    assert w[..|WrapPrefix|] == WrapPrefix;
    assert w[|WrapPrefix|..|WrapPrefix| + |js|] == js;
    WrapPartsWithoutNul();
    w
  }

  /** Neither fixed part of the wrapper holds a NUL. */
  lemma WrapPartsWithoutNul()
    ensures '\0' !in WrapPrefix && '\0' !in WrapSuffix
  {
  }

  /** The code inside a wrapped script. */
  function UnwrapScript(w: string): Option<string>
  {
    if |w| >= |WrapPrefix| + |WrapSuffix| && w[..|WrapPrefix|] == WrapPrefix
      && w[|w| - |WrapSuffix|..] == WrapSuffix
    then Some(w[|WrapPrefix|..|w| - |WrapSuffix|])
    else None
  }

  /** The wrap keeps the code whole, so distinct codes give distinct
      scripts; `to_hstring(js.c_str())` hands `eval` all of it when the
      code holds no NUL. */
  lemma UnwrapWrap(js: string)
    ensures UnwrapScript(WrapScript(js)) == Some(js)
    ensures '\0' !in js ==> CText(WrapScript(js)) == WrapScript(js)
  {
    var w := WrapScript(js);
    assert w[|w| - |WrapSuffix|..] == WrapSuffix;
    assert w[|WrapPrefix|..|w| - |WrapSuffix|] == js;
    if '\0' !in js {
      CTextWhole(w);
    }
  }

  /** How the wrapped script ends: it returns a value, whose text is given,
      or it throws an exception, with the text of `e.toString()`. */
  datatype ScriptOutcome = Returned(text: string) | Threw(message: string)

  /** The string the wrapped script returns. */
  function ScriptResult(outcome: ScriptOutcome): string
  {
    match outcome
    case Returned(text) => "ok:" + text
    case Threw(message) => "err:" + message
  }

  /** `AsyncStatus` of the `InvokeScriptAsync` operation. */
  datatype AsyncStatus = Started | Completed | Canceled | Error

  /** The `HRESULT` of a script that does not parse. */
  const SyntaxErrorHresult: uint32 := 0x8002_0101

  /** What the `Completed` handler does: calls the callback with a result
      and a NULL error, with a NULL result and an error, not at all, or
      fails its assertion on an answer that is neither "ok:" nor "err:". */
  datatype EvalReply = Result(text: string) | Failure(error: Errors.Error) | NoReply | InvalidResult

  /** The answer of a completed operation: after "ok:" the result, which
      reaches the callback through `c_str()`, after "err:" an error with
      code 1 and "JavaScript error: " before the message, and otherwise
      the failed assertion. `find(p) == 0` holds exactly when `p` is a
      prefix. */
  function CompletedReply(result: string): (r: EvalReply)
    ensures r.Result? <==> StartsWith(result, "ok:")
    ensures r.Result? ==> r.text == CText(result[3..])
    ensures r.Failure? ==> StartsWith(result, "err:") && r.error.code == 1 && r.error.allocMessage == Errors.MsgString
    ensures r == InvalidResult <==> !StartsWith(result, "ok:") && !StartsWith(result, "err:")
  {
    if StartsWith(result, "ok:") then Result(CText(result[3..]))
    else if StartsWith(result, "err:") then
      var message := "JavaScript error: " + result[4..];
      assert (message + ['\0'])[|message|] == '\0';
      Failure(Errors.NewWithMsg(1, message + ['\0']))
    else InvalidResult
  }

  /** The `Completed` handler of `bw_BrowserWindow_evalJs`. `unhandled` is
      the error `bw_win32_unhandledHresult` makes of the error code, which
      is not part of this model. A result comes only from a completed
      operation, the callback only from a completed or failed one. */
  function EvalReplyOf(status: AsyncStatus, errorCode: uint32, results: string, unhandled: Errors.Error): (r: EvalReply)
    ensures r.Result? ==> status == Completed
    ensures r.Failure? ==> status == Error || status == Completed
    ensures r == NoReply ==> status == Started || status == Canceled
  {
    match status
    case Error =>
      if errorCode == SyntaxErrorHresult then Failure(Errors.NewWithText(1, "JavaScript syntax error"))
      else Failure(unhandled)
    case Completed => CompletedReply(results)
    case _ => NoReply
  }

  /** Decoding inverts the wrapper: a returned value comes back as the
      result, and a thrown exception as an error with code 1 whose message
      is "JavaScript error: " and the exception's text. */
  lemma ReplyToScriptResult(outcome: ScriptOutcome)
    ensures outcome.Returned? ==> CompletedReply(ScriptResult(outcome)) == Result(CText(outcome.text))
    ensures outcome.Returned? && '\0' !in outcome.text ==> CompletedReply(ScriptResult(outcome)) == Result(outcome.text)
    ensures outcome.Threw? ==> CompletedReply(ScriptResult(outcome)).Failure?
    ensures outcome.Threw? ==> CompletedReply(ScriptResult(outcome)).error.code == 1
    ensures outcome.Threw? && '\0' !in outcome.message ==>
      Errors.MessageText(CompletedReply(ScriptResult(outcome)).error) == Some("JavaScript error: " + outcome.message)
  {
    var r := ScriptResult(outcome);
    match outcome
    case Returned(text) =>
      assert StartsWith(r, "ok:");
      assert r[3..] == text;
      if '\0' !in text {
        CTextWhole(text);
      }
    case Threw(message) =>
      assert r[..4] == "err:";
      assert !StartsWith(r, "ok:") by {
        if |r| >= 3 {
          assert r[..3][0] == 'e';
        }
      }
      assert r[4..] == message;
      var m := "JavaScript error: " + message;
      if '\0' !in message {
        assert '\0' !in m by {
          assert forall i :: 0 <= i < |m| ==> m[i] == if i < 18 then "JavaScript error: "[i] else message[i - 18];
        }
        Errors.TextOfTerminated(m, []);
        assert m + ['\0'] + [] == m + ['\0'];
      }
  }

  /** Every completed answer but one of the two forms fails the assertion,
      and only a completed or failed operation calls the callback. */
  lemma ReplyCases(status: AsyncStatus, errorCode: uint32, results: string, unhandled: Errors.Error)
    ensures EvalReplyOf(status, errorCode, results, unhandled) == InvalidResult <==>
      status == Completed && !StartsWith(results, "ok:") && !StartsWith(results, "err:")
    ensures EvalReplyOf(status, errorCode, results, unhandled) == NoReply <==> status == Started || status == Canceled
    ensures status == Error ==> EvalReplyOf(status, errorCode, results, unhandled).Failure?
    ensures status == Error && errorCode == SyntaxErrorHresult ==>
      Errors.MessageText(EvalReplyOf(status, errorCode, results, unhandled).error) == Some("JavaScript syntax error")
    ensures status == Error && errorCode != SyntaxErrorHresult ==>
      EvalReplyOf(status, errorCode, results, unhandled) == Failure(unhandled)
  {
  }
}
