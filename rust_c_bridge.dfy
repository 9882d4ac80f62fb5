/** The Rust side of the browser window over the C layer
    (src/core/browser_window/c.rs): the arguments it passes to
    `cbw_BrowserWindow_new` and the converters of the values the C layer
    hands back to it.

    The source's `PathBuf` is a string here (`to_str` never fails), and
    `to_string_lossy` keeps every character: encodings are not modelled. */
module RustBrowserWindow {
  import opened Wrappers
  import opened Handles
  import opened JavaScript
  import Errors
  import EvalCallbacks
  import ClientHandler
  import CefBrowserWindow
  import V8ToString

  // ---------------------------------------------------------------------
  // Creation arguments

  /** A width or a height as the `c_int` the C layer takes: -1 when it is
      not given, and otherwise the `u32` converted with `as`, which keeps
      the low 32 bits as two's complement. */
  function SizeArg(size: Option<uint32>): (r: int32)
    ensures size.None? ==> r == -1
    ensures size.Some? ==> (r as int - size.value as int) % TwoTo32 == 0
  {
    match size
    case None => -1
    case Some(x) => ToInt32(x as nat)
  }

  /** An unspecified size is -1, a size below 2^31 is passed as it is and
      a larger one turns negative; `u32::MAX` is passed as -1, the value
      that stands for an unspecified size. */
  lemma SizeArgValues(x: uint32)
    ensures SizeArg(None) == -1
    ensures x as int < TwoTo31 ==> SizeArg(Some(x)) as int == x as int
    ensures x as int >= TwoTo31 ==> SizeArg(Some(x)) < 0
    ensures SizeArg(Some(0xFFFF_FFFF)) == SizeArg(None)
  {
  }

  /** `Source`: a file, a string of HTML or a URL. */
  datatype Source = File(path: string) | Html(html: string) | Url(url: string)

  const FileUrlPrefix: string := "file:///"

  /** The `cbw_BrowserWindowSource` built for a source: a file by its
      "file:///" URL, with `is_html` 0; HTML with `is_html` 1; a URL as it
      is, with `is_html` 0. */
  function CSource(source: Source): (s: CefBrowserWindow.Source)
    ensures s.isHtml != 0 <==> source.Html?
    ensures s.data.len == |s.data.data|
  {
    match source
    case File(path) => CefBrowserWindow.Source(SliceOf(FileUrlPrefix + path), 0)
    case Html(html) => CefBrowserWindow.Source(SliceOf(html), 1)
    case Url(url) => CefBrowserWindow.Source(SliceOf(url), 0)
  }

  /** The URL the CEF browser is created with, for each kind of source. */
  lemma CefUrlOfSource(source: Source)
    ensures source.File? ==> CefBrowserWindow.SourceString(CSource(source)) == FileUrlPrefix + source.path
    ensures source.Html? ==> CefBrowserWindow.SourceString(CSource(source)) == CefBrowserWindow.HtmlDataPrefix + source.html
    ensures source.Url? ==> CefBrowserWindow.SourceString(CSource(source)) == source.url
    ensures CSource(source).isHtml != 0 <==> source.Html?
  {
    var s := CSource(source).data;
    assert SliceText(s) == s.data[..|s.data|] == s.data;
  }

  // ---------------------------------------------------------------------
  // Event argument converters

  /** `error_converter`: a record with code 0 is success; any other is
      the error itself. */
  function ErrorConverter(input: Errors.Error): (r: Result<(), Errors.Error>)
    ensures r.Ok? <==> input.code == 0
    ensures r.Err? ==> r.error == input
  {
    if input.code == 0 then Ok(()) else Err(input)
  }

  /** The converter agrees with `BW_ERR_IS_OK`, and an error comes through
      unchanged. */
  lemma ErrorConverterAgrees(input: Errors.Error)
    ensures ErrorConverter(input).Ok? <==> Errors.IsOk(input)
    ensures ErrorConverter(input).Err? ==> ErrorConverter(input).error == input
    ensures ErrorConverter(Errors.Success) == Ok(())
  {
  }

  /** `bool_converter`. */
  function BoolConverter(input: int32): (b: bool)
    ensures b ==> input != 0
    ensures input == 1 ==> b
  {
    input > 0
  }

  /** The C `BOOL`s 0 and 1 convert to false and true; a negative value,
      true for C, converts to false. */
  lemma BoolConverterValues(input: int32)
    ensures !BoolConverter(0) && BoolConverter(1)
    ensures BoolConverter(input) ==> input != 0
    ensures input < 0 ==> !BoolConverter(input)
  {
  }

  /** `cbw_BrowserWindowMessageArgs`: the command, a pointer to the
      argument slices, and their number. */
  datatype MessageArgs = MessageArgs(cmd: CStrSlice, args: seq<CStrSlice>, argCount: nat)

  /** `MessageEventArgs`: the command and the parsed arguments. */
  datatype MessageEventArgs = MessageEventArgs(cmd: string, args: seq<JsValue>)

  /** The slices are valid for their lengths, and `arg_count` slices can
      be read. */
  predicate ValidArgs(input: MessageArgs)
  {
    && input.cmd.len <= |input.cmd.data|
    && input.argCount <= |input.args|
    && forall i :: 0 <= i < input.argCount ==> input.args[i].len <= |input.args[i].data|
  }

  /** `message_args_converter`: the command's text, and the first
      `arg_count` slices each parsed by `JsValue::from_string`, in order. */
  method MessageArgsConverter(input: MessageArgs) returns (event: MessageEventArgs)
    requires ValidArgs(input)
    ensures event.cmd == SliceText(input.cmd)
    ensures |event.args| == input.argCount
    ensures forall i :: 0 <= i < input.argCount ==> event.args[i] == FromString(SliceText(input.args[i]))
  {
    var argsVec: seq<JsValue> := [];
    var i := 0;
    while i < input.argCount
      invariant 0 <= i <= input.argCount
      invariant |argsVec| == i
      invariant forall k :: 0 <= k < i ==> argsVec[k] == FromString(SliceText(input.args[k]))
    {
      argsVec := argsVec + [FromString(input.args[i].data[..input.args[i].len])];
      i := i + 1;
    }
    event := MessageEventArgs(input.cmd.data[..input.cmd.len], argsVec);
  }

  /** Arguments sent as the displayed text of values that round-trip come
      out as those values. */
  method MessageArgsOfValues(cmd: string, values: seq<JsValue>) returns (event: MessageEventArgs)
    requires forall i :: 0 <= i < |values| ==> RoundTrips(values[i])
    ensures event.cmd == cmd && event.args == values
  {
    var slices := seq(|values|, i requires 0 <= i < |values| => SliceOf(Display(values[i])));
    event := MessageArgsConverter(MessageArgs(SliceOf(cmd), slices, |values|));
    assert forall i :: 0 <= i < |values| ==> SliceText(slices[i]) == Display(values[i]);
  }

  // ---------------------------------------------------------------------
  // Script results

  /** `CStr::from_ptr(...).to_string_lossy()`: the characters before the
      first NUL. */
  function CStrText(s: string): (t: string)
    ensures '\0' !in s ==> t == s
    ensures Errors.IsCString(s) ==> '\0' !in t && |t| < |s| && t + ['\0'] == s[..|t| + 1]
  {
    if Errors.IsCString(s) then Errors.Text(s) else s
  }

  /** `ffi_eval_js_callback_result`: with a NULL error, the result parsed by
      `JsValue::from_string`; otherwise the error. A NULL error with a NULL
      result is not allowed (`CStr::from_ptr` dereferences it). */
  function EvalJsCallbackResult(bw: Ptr, result: Option<string>, error: Option<Errors.Error>): (r: (Ptr, Result<JsValue, Errors.Error>))
    requires error.Some? || result.Some?
    ensures r.0 == bw
    ensures r.1.Ok? <==> error.None?
    ensures r.1.Err? ==> r.1.error == error.value
    ensures r.1.Ok? ==> r.1.value == FromString(CStrText(result.value))
  {
    if error.None? then (bw, Ok(FromString(CStrText(result.value))))
    else (bw, Err(error.value))
  }

  /** What the Rust callback gets for an "eval-js-result" message that
      reaches a callback. */
  function RustResult(args: seq<ClientHandler.Value>): (Ptr, Result<JsValue, Errors.Error>)
    requires ClientHandler.EvalJsResult(args).Some?
  {
    var call := ClientHandler.EvalJsResult(args).value;
    EvalJsCallbackResult(call.bw, call.result, call.error)
  }

  /** The result of an "eval-js-result" message, as the Rust callback gets
      it: the parsed result when the success flag is set, and otherwise an
      error with code 1 whose message is the result text. */
  lemma EvalJsResultInRust(args: seq<ClientHandler.Value>)
    requires ClientHandler.EvalJsResult(args).Some?
    requires '\0' !in ClientHandler.GetString(args, 1)
    ensures RustResult(args).0 == args[2].bytes
    ensures ClientHandler.GetBool(args, 0) ==> RustResult(args).1 == Ok(FromString(ClientHandler.GetString(args, 1)))
    ensures !ClientHandler.GetBool(args, 0) ==> RustResult(args).1.Err? && RustResult(args).1.error.code == 1
    ensures !ClientHandler.GetBool(args, 0) ==>
      Errors.MessageText(RustResult(args).1.error) == Some(ClientHandler.GetString(args, 1))
  {
    if !ClientHandler.GetBool(args, 0) {
      ClientHandler.EvalJsResultError(args);
    }
  }

  /** The "eval-js-result" message of a successful evaluation: the flag,
      the converted value, then the window, the callback and its data. */
  function SucceededMessage(text: string, bw: Ptr, cb: FuncPtr, userData: Ptr): (args: seq<ClientHandler.Value>)
    ensures ClientHandler.EvalJsResult(args).Some?
  {
    [ClientHandler.BoolValue(true), ClientHandler.StringValue(text),
     ClientHandler.BinaryValue(bw), ClientHandler.BinaryValue(cb), ClientHandler.BinaryValue(userData)]
  }

  /** A script whose value is a JavaScript string reaches the Rust callback
      as that string, and a `null` as `Null`, through `V8ToString::convert`
      and `JsValue::from_string`; the string is not escaped, so any string
      without NUL comes back whole. */
  lemma V8StringReachesRust(s: string, bw: Ptr, cb: FuncPtr, userData: Ptr, fetch: V8ToString.Fetch)
    requires '\0' !in s
    ensures RustResult(SucceededMessage(V8ToString.Render(V8ToString.Str(s), fetch), bw, cb, userData)) == (bw, Ok(JavaScript.String(s)))
    ensures RustResult(SucceededMessage(V8ToString.Render(V8ToString.Null, fetch), bw, cb, userData)) == (bw, Ok(JavaScript.Null))
  {
    V8ToString.StringDecoded(s, fetch);
    V8ToString.ScalarsDecoded(true, fetch);
    var text := V8ToString.Render(V8ToString.Str(s), fetch);
    assert text == "\"" + s + "\"";
    assert '\0' !in text by {
      assert forall i :: 0 <= i < |text| ==> text[i] == '"' || text[i] == s[i - 1];
    }
    var args := SucceededMessage(text, bw, cb, userData);
    assert ClientHandler.GetBool(args, 0) && ClientHandler.GetString(args, 1) == text;
    var n := SucceededMessage("null", bw, cb, userData);
    assert ClientHandler.GetBool(n, 0) && ClientHandler.GetString(n, 1) == "null";
  }
}
