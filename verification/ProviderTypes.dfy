/** Requests to a model provider and the events it streams back, with their validation. */
module ProviderTypes {
  import opened Common

  // ---- Text ----

  /** unicode.IsSpace. */
  predicate IsSpace(c: char) {
    var u := c as int;
    0x09 <= u <= 0x0D || u == 0x20 || u == 0x85 || u == 0xA0 || u == 0x1680 || 0x2000 <= u <= 0x200A
    || u == 0x2028 || u == 0x2029 || u == 0x202F || u == 0x205F || u == 0x3000
  }

  /** unicode.IsControl. */
  predicate IsControl(c: char) { c as int < 0x20 || 0x7F <= c as int <= 0x9F }

  function TrimLeft(s: string): string { if s != [] && IsSpace(s[0]) then TrimLeft(s[1..]) else s }

  function TrimRight(s: string): string { if s != [] && IsSpace(s[|s| - 1]) then TrimRight(s[..|s| - 1]) else s }

  function TrimSpace(s: string): string { TrimRight(TrimLeft(s)) }

  function EncodedLength(s: string): nat {
    if s == [] then 0
    else
      var u := s[0] as int;
      (if u < 0x80 then 1 else if u < 0x800 then 2 else if u < 0x1_0000 then 3 else 4) + EncodedLength(s[1..])
  }

  predicate ValidBoundedText(s: string, maximum: nat) {
    s != [] && EncodedLength(s) <= maximum && TrimSpace(s) == s && forall c :: c in s ==> !IsControl(c)
  }

  lemma {:induction false} LeftIs(s: string) returns (i: nat)
    ensures i <= |s| && TrimLeft(s) == s[i..]
    ensures (forall k :: 0 <= k < i ==> IsSpace(s[k])) && (i < |s| ==> !IsSpace(s[i]))
  {
    hide IsSpace;
    i := 0;
    if s != [] && IsSpace(s[0]) {
      var j := LeftIs(s[1..]);
      i := j + 1;
      forall k | 0 <= k < i ensures IsSpace(s[k]) {
        if k > 0 {
          assert s[1..][k - 1] == s[k];
        }
      }
    }
  }

  lemma {:induction false} RightIs(s: string) returns (j: nat)
    ensures j <= |s| && TrimRight(s) == s[..j]
    ensures (forall k :: j <= k < |s| ==> IsSpace(s[k])) && (0 < j ==> !IsSpace(s[j - 1]))
    decreases |s|
  {
    hide IsSpace;
    j := |s|;
    if s != [] && IsSpace(s[|s| - 1]) {
      var front := s[..|s| - 1];
      j := RightIs(front);
      assert front[..j] == s[..j];
      forall k | j <= k < |s| ensures IsSpace(s[k]) {
        if k < |front| {
          assert front[k] == s[k];
        }
      }
    }
  }

  /** Trimming leaves what lies between the first and the last character that are no space, or nothing. */
  lemma TrimIs(s: string) returns (i: nat, j: nat)
    ensures i <= j <= |s| && TrimSpace(s) == s[i..j]
    ensures forall k :: 0 <= k < i || j <= k < |s| ==> IsSpace(s[k])
    ensures i < j ==> !IsSpace(s[i]) && !IsSpace(s[j - 1])
  {
    hide IsSpace, TrimLeft, TrimRight;
    i := LeftIs(s);
    var n := RightIs(s[i..]);
    j := i + n;
    assert s[i..][..n] == s[i..j];
    forall k | j <= k < |s| ensures IsSpace(s[k]) {
      assert s[i..][k - i] == s[k];
    }
  }

  /** What an identifier has to be: not empty, not too long, with no space at either end and no control character. */
  lemma BoundedTextIs(s: string, maximum: nat)
    ensures ValidBoundedText(s, maximum) <==>
              && s != [] && EncodedLength(s) <= maximum && !IsSpace(s[0]) && !IsSpace(s[|s| - 1])
              && forall c :: c in s ==> !IsControl(c)
  {
    hide IsSpace, TrimSpace, IsControl, EncodedLength;
    var i, j := TrimIs(s);
    if s != [] && !IsSpace(s[0]) && !IsSpace(s[|s| - 1]) {
      assert i == 0 && j == |s|;
    }
  }

  predicate ValidToolName(s: string) {
    1 <= |s| <= 64 && forall c :: c in s ==>
      'A' <= c <= 'Z' || 'a' <= c <= 'z' || '0' <= c <= '9' || c == '_' || c == '-'
  }

  // ---- Requests ----

  datatype Role = System | User | Assistant | Tool | OtherRole

  datatype ToolCall = ToolCall(id: string, name: string, arguments: string)

  datatype Message = Message(role: Role, content: string, toolCalls: seq<ToolCall>, toolCallID: string)

  datatype ToolDefinition = ToolDefinition(name: string, description: string, parameters: string)

  datatype Request = Request(model: string, messages: seq<Message>, tools: seq<ToolDefinition>)

  /** Which texts are JSON objects; JSON itself is not part of this model. */
  type Json = string -> bool

  predicate ValidCall(call: ToolCall, isObject: Json) {
    ValidBoundedText(call.id, 1024) && ValidToolName(call.name) && isObject(call.arguments)
  }

  predicate ValidMessage(m: Message, isObject: Json) {
    match m.role
    case System | User => m.content != [] && m.toolCalls == [] && m.toolCallID == []
    case Assistant =>
      (m.content != [] || m.toolCalls != []) && m.toolCallID == [] && forall call :: call in m.toolCalls ==>
        ValidCall(call, isObject)
    case Tool => ValidBoundedText(m.toolCallID, 1024) && m.toolCalls == []
    case OtherRole => false
  }

  predicate ValidTools(tools: seq<ToolDefinition>, isObject: Json) {
    && (forall tool :: tool in tools ==> ValidToolName(tool.name) && isObject(tool.parameters))
    && (forall i, j :: 0 <= i < j < |tools| ==> tools[i].name != tools[j].name)
  }

  predicate ValidRequest(r: Request, isObject: Json) {
    && ValidBoundedText(r.model, 1024)
    && r.messages != [] && (forall m :: m in r.messages ==> ValidMessage(m, isObject))
    && ValidTools(r.tools, isObject)
  }

  /** The loop of Request.Validate over the tools, which fills a set of the names seen. */
  method ValidateTools(tools: seq<ToolDefinition>, isObject: Json) returns (ok: bool)
    ensures ok <==> ValidTools(tools, isObject)
  {
    hide ValidToolName;
    var seen: set<string> := {};
    for i := 0 to |tools|
      invariant forall j :: 0 <= j < i ==> tools[j].name in seen
      invariant forall name :: name in seen ==> exists j :: 0 <= j < i && tools[j].name == name
      invariant forall j :: 0 <= j < i ==> ValidToolName(tools[j].name) && isObject(tools[j].parameters)
      invariant forall j, k :: 0 <= j < k < i ==> tools[j].name != tools[k].name
    {
      if !ValidToolName(tools[i].name) || tools[i].name in seen || !isObject(tools[i].parameters) {
        return false;
      }
      seen := seen + {tools[i].name};
    }
    ok := true;
  }

  /** Request.Validate. */
  method Validate(r: Request, isObject: Json) returns (ok: bool)
    ensures ok <==> ValidRequest(r, isObject)
  {
    if !ValidBoundedText(r.model, 1024) || r.messages == [] {
      return false;
    }
    hide ValidMessage, ValidBoundedText, ValidTools;
    for i := 0 to |r.messages|
      invariant forall k :: 0 <= k < i ==> ValidMessage(r.messages[k], isObject)
    {
      if !ValidMessage(r.messages[i], isObject) {
        return false;
      }
    }
    ok := ValidateTools(r.tools, isObject);
  }

  // ---- Events ----

  datatype Usage = Usage(input: int, output: int, cacheRead: int, cacheWrite: int)

  datatype Delta = Delta(index: int, id: string, name: string, arguments: string, done: bool)

  datatype Event = TextDelta(text: string) | ReasoningDelta(text: string) | CallDelta(delta: Delta)
    | UsageReport(usage: Usage) | OtherEvent

  predicate ValidEvent(e: Event) {
    match e
    case TextDelta(text) => text != []
    case ReasoningDelta(text) => text != []
    case CallDelta(d) => 0 <= d.index && (d.id != [] || d.name != [] || d.arguments != [] || d.done)
    case UsageReport(u) => 0 <= u.input && 0 <= u.output && 0 <= u.cacheRead && 0 <= u.cacheWrite
    case OtherEvent => false
  }
}
