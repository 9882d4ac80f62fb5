/** The CEF browser window of the C layer (c/src/browser_window/cef.cpp):
    the script sent to the renderer process for evaluation, the URL a new
    browser is created with, the resource path it keeps, and the resize
    guard.

    Creating the CEF browser itself (`CreateBrowserSync`) is not part of
    this model: its identifier and the address of the new `CefRefPtr` are
    parameters. */
module CefBrowserWindow {
  import opened Wrappers
  import opened Handles
  import opened HandleMaps
  import Errors
  import ClientHandler

  // ---------------------------------------------------------------------
  // Script evaluation

  const CodePrefix: string := "(function () { return "
  const CodeSuffix: string := "; })()"

  /** The code `bw_BrowserWindow_evalJs` sends: the script as the value
      returned by a function that is called at once. */
  function EvalJsCode(js: string): (code: string)
    ensures |code| == |CodePrefix| + |js| + |CodeSuffix|
    ensures code[..|CodePrefix|] == CodePrefix && code[|CodePrefix|..|CodePrefix| + |js|] == js
  {
    var code := CodePrefix + js + CodeSuffix;
    assert code[..|CodePrefix|] == CodePrefix;
    assert code[|CodePrefix|..|CodePrefix| + |js|] == js;
    code
  }

  /** The script inside such code. */
  function UnwrapCode(code: string): Option<string>
  {
    if |code| >= |CodePrefix| + |CodeSuffix| && code[..|CodePrefix|] == CodePrefix
      && code[|code| - |CodeSuffix|..] == CodeSuffix
    then Some(code[|CodePrefix|..|code| - |CodeSuffix|])
    else None
  }

  /** The script is kept whole inside the code. */
  lemma UnwrapEvalJsCode(js: string)
    ensures UnwrapCode(EvalJsCode(js)) == Some(js)
  {
    var code := EvalJsCode(js);
    assert code[..|CodePrefix|] == CodePrefix;
    assert code[|code| - |CodeSuffix|..] == CodeSuffix;
    assert code[|CodePrefix|..|code| - |CodeSuffix|] == js;
  }

  /** A `CefProcessMessage`: its name and its argument list. */
  datatype ProcessMessage = ProcessMessage(name: string, args: seq<ClientHandler.Value>)

  const EvalJsName: string := "eval-js"

  /** `bw_BrowserWindowCef_sendJsToRendererProcess`: the code at position 0,
      then the browser window, the callback and its data as binary values
      at 1, 2 and 3. */
  function EvalJsMessage(bw: Ptr, code: string, cb: FuncPtr, userData: Ptr): ProcessMessage
  {
    ProcessMessage(EvalJsName, [
      ClientHandler.StringValue(code),
      ClientHandler.BinaryValue(bw),
      ClientHandler.BinaryValue(cb),
      ClientHandler.BinaryValue(userData)])
  }

  /** What the renderer process reads back from an "eval-js" message. */
  function ReadEvalJs(msg: ProcessMessage): Option<(string, Ptr, FuncPtr, Ptr)>
  {
    if msg.name == EvalJsName && |msg.args| == 4 && msg.args[0].StringValue?
      && msg.args[1].BinaryValue? && msg.args[2].BinaryValue? && msg.args[3].BinaryValue?
    then Some((msg.args[0].s, msg.args[1].bytes, msg.args[2].bytes, msg.args[3].bytes))
    else None
  }

  /** Every value put into the message is read back from its position. */
  lemma ReadEvalJsMessage(bw: Ptr, code: string, cb: FuncPtr, userData: Ptr)
    ensures ReadEvalJs(EvalJsMessage(bw, code, cb, userData)) == Some((code, bw, cb, userData))
    ensures ClientHandler.GetString(EvalJsMessage(bw, code, cb, userData).args, 0) == code
  {
  }

  // ---------------------------------------------------------------------
  // The browser window

  /** `bw_BrowserWindowCef_connectToWindow` and the engine's `CefClient`
      are left to the caller; the fields are those of `bw_BrowserWindowImpl`. */
  class BrowserWindow {
    /** The address of the `bw_BrowserWindow`. */
    const handle: Ptr
    /** `impl.cef_ptr`: the `CefRefPtr<CefBrowser>*`, 0 until created. */
    var cefPtr: Ptr
    /** `impl.resource_path`: NULL (`None`) or a NUL-terminated copy. */
    var resourcePath: Option<string>

    /** A browser window whose CEF browser is not created yet. */
    constructor (handle: Ptr)
      ensures this.handle == handle && cefPtr == NULL && resourcePath == None
    {
      this.handle := handle;
      cefPtr := NULL;
      resourcePath := None;
    }

    /** `bw_BrowserWindow_evalJs`: the script of the slice, wrapped, sent
      to the renderer with the window, the callback and its data. The CEF
      browser must have been created: its pointer is dereferenced. */
    method EvalJs(js: CStrSlice, cb: FuncPtr, userData: Ptr) returns (msg: ProcessMessage)
      requires cefPtr != NULL && js.len <= |js.data|
      ensures msg == EvalJsMessage(handle, EvalJsCode(SliceText(js)), cb, userData)
      ensures ReadEvalJs(msg) == Some((EvalJsCode(SliceText(js)), handle, cb, userData))
    {
      var code := CodePrefix + js.data[..js.len] + CodeSuffix;
      msg := EvalJsMessage(handle, code, cb, userData);
      ReadEvalJsMessage(handle, code, cb, userData);
    }

    /** `bw_BrowserWindow_evalJsThreaded`: the same as `EvalJs`, from any
      thread. */
    method EvalJsThreaded(js: CStrSlice, cb: FuncPtr, userData: Ptr) returns (msg: ProcessMessage)
      requires cefPtr != NULL && js.len <= |js.data|
      ensures msg == EvalJsMessage(handle, EvalJsCode(SliceText(js)), cb, userData)
    {
      msg := EvalJs(js, cb, userData);
    }
  }

  /** `bw_BrowserWindowSource`: the data and whether it is HTML (nonzero). */
  datatype Source = Source(data: CStrSlice, isHtml: int)

  const HtmlDataPrefix: string := "data:text/html,"

  /** The URL a new browser is created with: the data itself, or the HTML
      behind the "data:text/html," prefix. */
  function SourceString(source: Source): (s: string)
    requires source.data.len <= |source.data.data|
    ensures source.isHtml == 0 ==> s == SliceText(source.data)
    ensures source.isHtml != 0 ==> |s| >= |HtmlDataPrefix| && s[..|HtmlDataPrefix|] == HtmlDataPrefix
    ensures source.isHtml != 0 ==> s[|HtmlDataPrefix|..] == SliceText(source.data)
  {
    if source.isHtml == 0 then SliceText(source.data)
    else HtmlDataPrefix + SliceText(source.data)
  }

  /** The resource path kept: NULL for an empty slice, otherwise its
      characters and a NUL. */
  function ResourcePath(path: CStrSlice): (r: Option<string>)
    requires path.len <= |path.data|
    ensures r.None? <==> path.len == 0
    ensures r.Some? ==> |r.value| == path.len + 1 && r.value[path.len] == '\0' && r.value[..path.len] == SliceText(path)
  {
    if path.len != 0 then Some(SliceText(path) + ['\0']) else None
  }

  /** The copy reads back as the path, when the path holds no NUL. */
  lemma ResourcePathText(path: CStrSlice)
    requires path.len <= |path.data| && '\0' !in SliceText(path)
    ensures ResourcePath(path).None? <==> path.len == 0
    ensures ResourcePath(path).Some? ==>
      Errors.IsCString(ResourcePath(path).value) && Errors.Text(ResourcePath(path).value) == SliceText(path)
  {
    if path.len != 0 {
      Errors.TextOfTerminated(SliceText(path), []);
      assert SliceText(path) + ['\0'] + [] == SliceText(path) + ['\0'];
    }
  }

  /** `bw_BrowserWindowOptions`: the fields the CEF engine reads. */
  datatype Options = Options(devTools: bool, resourcePath: CStrSlice)

  /** What `CreateBrowserSync` is given: the URL and the extra
      information dictionary, as (key, value) pairs. */
  datatype CreateRequest = CreateRequest(url: string, extraInfo: seq<(string, ClientHandler.Value)>)

  /** The dictionary: the window, the creation callback and its data as
      binary values, and the dev-tools flag. */
  function ExtraInfo(browser: Ptr, callback: FuncPtr, callbackData: Ptr, devTools: bool): seq<(string, ClientHandler.Value)>
  {
    [("handle", ClientHandler.BinaryValue(browser)),
     ("callback", ClientHandler.BinaryValue(callback)),
     ("callback-data", ClientHandler.BinaryValue(callbackData)),
     ("dev-tools", ClientHandler.BoolValue(devTools))]
  }

  /** `bw_BrowserWindowImpl_new`: the browser is created with the source's
      URL; its identifier is linked in the handle map to the window with the
      creation callback still to be called; the window gets the address of
      the CEF browser and the resource path. */
  method ImplNew(browser: BrowserWindow, source: Source, options: Options, callback: FuncPtr, callbackData: Ptr,
                 handles: HandleMap, cefBrowser: int, cefPtr: Ptr)
    returns (request: CreateRequest)
    requires source.data.len <= |source.data.data| && options.resourcePath.len <= |options.resourcePath.data|
    requires cefPtr != NULL && !handles.locked
    modifies browser, handles
    ensures request.url == SourceString(source)
    ensures request.extraInfo == ExtraInfo(browser.handle, callback, callbackData, options.devTools)
    ensures browser.cefPtr == cefPtr && browser.resourcePath == ResourcePath(options.resourcePath)
    ensures handles.entries == old(handles.entries)[cefBrowser := BrowserInfo(browser.handle, Some(OnCreateCallback(callback, callbackData)))]
    ensures !handles.locked && handles.faults == old(handles.faults)
  {
    var url: string;
    if source.isHtml == 0 {
      url := source.data.data[..source.data.len];
    } else {
      url := HtmlDataPrefix + source.data.data[..source.data.len];
    }
    var path: Option<string> := None;
    if options.resourcePath.len != 0 {
      path := Some(options.resourcePath.data[..options.resourcePath.len] + ['\0']);
    }
    request := CreateRequest(url, ExtraInfo(browser.handle, callback, callbackData, options.devTools));
    handles.Store(cefBrowser, browser.handle, callback, callbackData);
    browser.cefPtr := cefPtr;
    browser.resourcePath := path;
  }

  /** `bw_BrowserWindowImpl_onResize`: the CEF browser is resized only when
      the window has a browser window whose CEF browser exists. */
  function OnResize(bw: BrowserWindow?, width: uint32, height: uint32): (resized: Option<(uint32, uint32)>)
    reads bw
    ensures resized.Some? <==> bw != null && bw.cefPtr != NULL
    ensures resized.Some? ==> resized.value == (width, height)
  {
    if bw != null && bw.cefPtr != NULL then Some((width, height)) else None
  }

  /** Before `ImplNew` nothing is resized; after it every resize reaches
      the CEF browser. */
  method ResizeBeforeAndAfterCreation(handle: Ptr, source: Source, options: Options, handles: HandleMap,
                                      cefBrowser: int, cefPtr: Ptr, width: uint32, height: uint32)
    returns (before: Option<(uint32, uint32)>, after: Option<(uint32, uint32)>)
    requires source.data.len <= |source.data.data| && options.resourcePath.len <= |options.resourcePath.data|
    requires cefPtr != NULL && !handles.locked
    modifies handles
    ensures before == None && after == Some((width, height))
    ensures OnResize(null, width, height) == None
  {
    var browser := new BrowserWindow(handle);
    before := OnResize(browser, width, height);
    var _ := ImplNew(browser, source, options, NULL, NULL, handles, cefBrowser, cefPtr);
    after := OnResize(browser, width, height);
  }
}
