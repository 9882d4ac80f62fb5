/** The C error record `bw_Err`: an error code, a data pointer and the
    function that renders the message. A C string is a sequence of
    characters that holds a NUL; its text is what comes before the first
    NUL. */
module Errors {
  import opened Wrappers
  import opened Handles

  /** The `alloc_message` function of a record. `MsgSuccess` and
      `MsgString` are the two defined next to the record; `Rendered` stands
      for a renderer defined elsewhere, given by the text it produces. */
  datatype Renderer = MsgSuccess | MsgString | Rendered(text: string)

  /** `bw_Err`. `data` is `None` for the NULL pointer and otherwise the
      buffer it points to. */
  datatype Error = Error(code: uint32, data: Option<string>, allocMessage: Renderer)

  const SuccessCode: uint32 := 0
  const SuccessMessage: string := "success"

  predicate IsCString(s: string) {
    '\0' in s
  }

  /** `strlen`: the index of the first NUL. */
  function Strlen(s: string): (n: nat)
    requires IsCString(s)
    ensures n < |s| && s[n] == '\0'
    ensures forall i :: 0 <= i < n ==> s[i] != '\0'
  {
    if s[0] == '\0' then 0
    else
      assert '\0' in s[1..] by {
        var k :| 0 <= k < |s| && s[k] == '\0';
        assert s[1..][k - 1] == '\0';
      }
      1 + Strlen(s[1..])
  }

  /** The text of a C string. */
  function Text(s: string): (t: string)
    requires IsCString(s)
    ensures '\0' !in t
    ensures |t| < |s| && t + ['\0'] == s[..|t| + 1]
  {
    s[..Strlen(s)]
  }

  /** The text of a NUL-free string with a NUL appended is that string. */
  lemma TextOfTerminated(t: string, rest: string)
    requires '\0' !in t
    ensures IsCString(t + ['\0'] + rest)
    ensures Text(t + ['\0'] + rest) == t
  {
    var s := t + ['\0'] + rest;
    assert s[|t|] == '\0';
    assert forall i :: 0 <= i < |t| ==> s[i] == t[i];
    StrlenAt(s, |t|);
  }

  /** The first NUL is where `strlen` stops. */
  lemma StrlenAt(s: string, n: nat)
    requires n < |s| && s[n] == '\0'
    requires forall i :: 0 <= i < n ==> s[i] != '\0'
    ensures IsCString(s) && Strlen(s) == n
  {
  }

  /** `BW_ERR_RETURN_SUCCESS`: code 0, no data, the "success" renderer. */
  const Success: Error := Error(SuccessCode, None, MsgSuccess)

  /** `BW_ERR_IS_OK` / `BW_ERR_IS_FAIL`. */
  predicate IsOk(e: Error) {
    e.code == SuccessCode
  }

  /** `bw_Err_new_with_msg`: the message is copied up to and including
      its NUL (`strlen(msg) + 1` bytes) into a new buffer, the code is
      kept and `bw_Err_msg_string` renders it. */
  function NewWithMsg(code: uint32, msg: string): (e: Error)
    requires IsCString(msg)
    ensures e.code == code && e.allocMessage == MsgString
    ensures e.data.Some? && |e.data.value| == Strlen(msg) + 1
    ensures e.data.value == Text(msg) + ['\0']
  {
    Error(code, Some(msg[..Strlen(msg) + 1]), MsgString)
  }

  /** `bw_Err_msg_string` returns its data pointer unchanged and
      `bw_Err_msg_success` a new copy of "success"; the result stays NULL
      (`None`) when the data pointer is NULL. */
  function AllocMessage(render: Renderer, code: uint32, data: Option<string>): (m: Option<string>)
    ensures render == MsgString ==> m == data
    ensures render == MsgSuccess ==> m == Some(SuccessMessage + ['\0'])
    ensures render.Rendered? ==> m == Some(render.text + ['\0'])
  {
    match render
    case MsgSuccess => Some(SuccessMessage + ['\0'])
    case MsgString => data
    case Rendered(text) => Some(text + ['\0'])
  }

  /** `bw_Err_message`: a record made from a string hands out its own
      stored buffer; the success record hands out a fresh copy of the
      success text; any other renderer a fresh copy of its text. */
  function Message(e: Error): (m: Option<string>)
    ensures e.allocMessage == MsgString ==> m == e.data
    ensures e.allocMessage == MsgSuccess ==> m == Some(SuccessMessage + ['\0'])
    ensures e.allocMessage.Rendered? ==> m == Some(e.allocMessage.text + ['\0'])
    ensures m.Some? && e.allocMessage != MsgString ==> IsCString(m.value)
  {
    AllocMessage(e.allocMessage, e.code, e.data)
  }

  /** `bw_Err_free`: for a record made from a string, the buffer released
      is the very buffer its message handed out; a record without data
      releases nothing. */
  function Free(e: Error): (released: Option<string>)
    ensures e.allocMessage == MsgString ==> released == Message(e)
    ensures e.data.None? ==> released.None?
  {
    e.data
  }

  /** What `new_with_msg` stores is what `bw_Err_message` returns ... */
  lemma NewWithMsgMessage(code: uint32, msg: string)
    requires IsCString(msg)
    ensures Message(NewWithMsg(code, msg)) == NewWithMsg(code, msg).data
    ensures Free(NewWithMsg(code, msg)) == NewWithMsg(code, msg).data
  {
  }

  /** ... so the message text reads back as the text passed in. */
  lemma NewWithMsgRoundTrip(code: uint32, msg: string)
    requires IsCString(msg)
    ensures var m := Message(NewWithMsg(code, msg));
      m.Some? && IsCString(m.value) && Text(m.value) == Text(msg)
  {
    var t := Text(msg);
    TextOfTerminated(t, []);
    assert t + ['\0'] + [] == t + ['\0'];
  }

  /** A message given as text without NUL, as the engines build them. */
  function NewWithText(code: uint32, text: string): (e: Error)
    requires '\0' !in text
    ensures e.code == code && e.allocMessage == MsgString
    ensures e.data == Some(text + ['\0'])
    ensures Message(e).Some? && IsCString(Message(e).value) && Text(Message(e).value) == text
  {
    TextOfTerminated(text, []);
    assert text + ['\0'] + [] == text + ['\0'];
    NewWithMsg(code, text + ['\0'])
  }

  /** The text a caller reads from `bw_Err_message`, when the result is
      not NULL. */
  function MessageText(e: Error): (t: Option<string>)
    ensures t.Some? ==> '\0' !in t.value
  {
    match Message(e)
    case Some(m) => if IsCString(m) then Some(Text(m)) else None
    case None => None
  }

  lemma SuccessMessageText()
    ensures IsOk(Success)
    ensures MessageText(Success) == Some(SuccessMessage)
  {
    TextOfTerminated(SuccessMessage, []);
    assert SuccessMessage + ['\0'] + [] == SuccessMessage + ['\0'];
  }
}
