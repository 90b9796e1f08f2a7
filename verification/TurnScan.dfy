/**
 Reading an agent result backwards: the response text, the new artifacts, and whether the turn ended in a
 clarification question. A payload of an unexpected shape makes a scan raise where Python would.
 */
module TurnScan {
  import opened Options

  const CLARIFICATION_TOOL := "ask_clarification"

  datatype Block = TextBlock(text: Option<string>)  // a text block; `None` if its text is not a string
                 | RawBlock(raw: string)
                 | OtherBlock

  datatype Content = Text(text: string) | Blocks(blocks: seq<Block>) | Other(truthy: bool)

  datatype ToolCall = PresentFiles(paths: seq<Option<string>>)  // `None` for a path that is not a string
                    | OtherCall
                    | BadArgs                                   // a present_files call whose args have no fields

  datatype Calls = CallList(calls: seq<ToolCall>) | NotIterable(truthy: bool)

  datatype Message =
    | Human(hidden: bool)
    | Tool(name: string, content: Content)
    | Ai(content: Content, calls: Calls)
    | OtherMessage
    | NotAMessage

  datatype Scan<+T> = Value(value: T) | Raises

  predicate EndsTurn(m: Message) {
    m == Human(false)
  }

  /******* Response text *******/

  function JoinBlocks(blocks: seq<Block>): Scan<string> {
    if blocks == [] then Value("")
    else
      var rest := JoinBlocks(blocks[1..]);
      match blocks[0]
      case TextBlock(None) => Raises
      case TextBlock(Some(t)) => if rest.Raises? then Raises else Value(t + rest.value)
      case RawBlock(t) => if rest.Raises? then Raises else Value(t + rest.value)
      case OtherBlock => rest
  }

  /** The text one message contributes; empty means the scan goes on. */
  function TextOf(m: Message): Scan<string> {
    match m
    case Tool(name, Text(t)) => Value(if name == CLARIFICATION_TOOL then t else "")
    case Ai(Text(t), _) => Value(t)
    case Ai(Blocks(blocks), _) => JoinBlocks(blocks)
    case _ => Value("")
  }

  function Response(ms: seq<Message>): Scan<string> {
    if ms == [] then Value("")
    else
      var m := ms[|ms| - 1];
      if EndsTurn(m) then Value("")
      else if TextOf(m) == Value("") then Response(ms[..|ms| - 1])
      else TextOf(m)
  }

  /** Where the current turn starts: just after the last visible human message. */
  function TurnStart(ms: seq<Message>): (n: nat)
    ensures n <= |ms|
  {
    if ms == [] then 0
    else if EndsTurn(ms[|ms| - 1]) then |ms|
    else TurnStart(ms[..|ms| - 1])
  }

  lemma {:induction false} TurnStartIsLastHuman(ms: seq<Message>)
    ensures forall i :: TurnStart(ms) <= i < |ms| ==> !EndsTurn(ms[i])
    ensures TurnStart(ms) > 0 ==> EndsTurn(ms[TurnStart(ms) - 1])
  {
    if ms != [] && !EndsTurn(ms[|ms| - 1]) { TurnStartIsLastHuman(ms[..|ms| - 1]); }
  }

  /** The response is the text of the last message of the current turn that has any. */
  lemma {:induction false} ResponseIsLastText(ms: seq<Message>)
    ensures Response(ms) == Value("") <==> forall i :: TurnStart(ms) <= i < |ms| ==> TextOf(ms[i]) == Value("")
    ensures Response(ms) != Value("") ==>
      exists i :: TurnStart(ms) <= i < |ms| && TextOf(ms[i]) == Response(ms)
                  && forall j :: i < j < |ms| ==> TextOf(ms[j]) == Value("")
  {
    if ms != [] {
      var n := |ms| - 1;
      if !EndsTurn(ms[n]) && TextOf(ms[n]) == Value("") {
        ResponseIsLastText(ms[..n]);
        if Response(ms) != Value("") {
          var i :| TurnStart(ms) <= i < n && TextOf(ms[..n][i]) == Response(ms)
                   && forall j :: i < j < n ==> TextOf(ms[..n][j]) == Value("");
          forall j | i < j < |ms| ensures TextOf(ms[j]) == Value("") {
            if j < n { assert ms[..n][j] == ms[j]; }
          }
          assert TextOf(ms[i]) == Response(ms);
        } else {
          forall i | TurnStart(ms) <= i < |ms| ensures TextOf(ms[i]) == Value("") {
            if i < n { assert ms[..n][i] == ms[i]; }
          }
        }
      }
    }
  }

  /** Nothing before a visible human message matters. */
  lemma {:induction false} ResponseForgetsPast(past: seq<Message>, turn: seq<Message>)
    ensures Response(past + [Human(false)] + turn) == Response(turn)
  {
    var ms := past + [Human(false)] + turn;
    if turn == [] {
      assert ms[|ms| - 1] == Human(false);
    } else {
      assert ms[..|ms| - 1] == past + [Human(false)] + turn[..|turn| - 1];
      ResponseForgetsPast(past, turn[..|turn| - 1]);
    }
  }

  /** The blocks of a message are read in order: texts and plain strings as they are, other blocks not at all. */
  lemma {:induction false} BlocksInOrder(a: seq<Block>, b: seq<Block>)
    ensures
      var first, second := JoinBlocks(a), JoinBlocks(b);
      JoinBlocks(a + b) == if first.Raises? || second.Raises? then Raises else Value(first.value + second.value)
  {
    if a == [] {
      assert a + b == b;
      if JoinBlocks(b).Value? { assert JoinBlocks(a).value + JoinBlocks(b).value == JoinBlocks(b).value; }
    } else {
      assert (a + b)[1..] == a[1..] + b;
      BlocksInOrder(a[1..], b);
      var rest, second := JoinBlocks(a[1..]), JoinBlocks(b);
      if JoinBlocks(a).Value? && second.Value? && !a[0].OtherBlock? {
        var text := if a[0].RawBlock? then a[0].raw else a[0].text.value;
        assert text + (rest.value + second.value) == (text + rest.value) + second.value;
      }
    }
  }

  lemma OneBlock(text: string)
    ensures JoinBlocks([TextBlock(Some(text))]) == Value(text) == JoinBlocks([RawBlock(text)])
    ensures JoinBlocks([OtherBlock]) == Value("") && JoinBlocks([TextBlock(None)]) == Raises
  {
    assert [TextBlock(Some(text))][1..] == [] && [RawBlock(text)][1..] == [] && [OtherBlock][1..] == [];
    assert text + "" == text;
  }

  /** What can become the response: a clarification question, or what the AI says in text or in blocks. */
  predicate Speaks(m: Message, text: string) {
    || m == Tool("ask_clarification", Text(text))
    || (m.Ai? && m.content == Text(text))
    || (m.Ai? && m.content.Blocks? && JoinBlocks(m.content.blocks) == Value(text))
  }

  /** The response is said by a message of the current turn, after which nobody says anything; and the reverse. */
  lemma ResponseIsSpoken(ms: seq<Message>, text: string)
    requires text != ""
    ensures Response(ms) == Value(text) <==>
            exists i :: TurnStart(ms) <= i < |ms| && Speaks(ms[i], text)
                        && forall j :: i < j < |ms| ==> TextOf(ms[j]) == Value("")
  {
    ResponseIsLastText(ms);
    assert forall m :: Speaks(m, text) <==> TextOf(m) == Value(text);
    hide Response, TurnStart, Speaks, TextOf;
    if i :| TurnStart(ms) <= i < |ms| && Speaks(ms[i], text)
            && forall j :: i < j < |ms| ==> TextOf(ms[j]) == Value("") {
      var k :| TurnStart(ms) <= k < |ms| && TextOf(ms[k]) == Response(ms)
               && forall j :: k < j < |ms| ==> TextOf(ms[j]) == Value("");
      assert k == i;
    }
  }

  /** A hidden human message might as well not be there. */
  lemma {:induction false} HiddenIsTransparent(past: seq<Message>, turn: seq<Message>)
    ensures Response(past + [Human(true)] + turn) == Response(past + turn)
    ensures Artifacts(past + [Human(true)] + turn) == Artifacts(past + turn)
  {
    var ms, n := past + [Human(true)] + turn, |turn| - 1;
    if turn == [] {
      assert ms[..|ms| - 1] == past + turn == past;
      assert Artifacts(past).Value? ==> [] + Artifacts(past).value == Artifacts(past).value;
    } else {
      assert ms[..|ms| - 1] == past + [Human(true)] + turn[..n];
      assert (past + turn)[..|past + turn| - 1] == past + turn[..n];
      HiddenIsTransparent(past, turn[..n]);
    }
  }

  method ExtractResponseText(ms: seq<Message>) returns (text: Scan<string>)
    ensures text == Response(ms)
  {
    var i := |ms|;
    assert ms[..i] == ms;
    while i > 0
      invariant 0 <= i <= |ms| && Response(ms) == Response(ms[..i])
    {
      i := i - 1;
      assert ms[..i + 1][..i] == ms[..i];
      match ms[i]
      case Human(hidden) =>
        if !hidden { break; }
      case Tool(name, Text(t)) =>
        if name == CLARIFICATION_TOOL && t != "" { return Value(t); }
      case Ai(Text(t), _) =>
        if t != "" { return Value(t); }
      case Ai(Blocks(blocks), _) =>
        var joined := JoinBlocks(blocks);
        if joined != Value("") { return joined; }
      case _ =>
    }
    return Value("");
  }

  /******* Artifacts *******/

  function Strings(paths: seq<Option<string>>): seq<string> {
    if paths == [] then []
    else (if paths[0].Some? then [paths[0].value] else []) + Strings(paths[1..])
  }

  function CallPaths(calls: seq<ToolCall>): Scan<seq<string>> {
    if calls == [] then Value([])
    else
      var rest := CallPaths(calls[1..]);
      match calls[0]
      case PresentFiles(paths) => if rest.Raises? then Raises else Value(Strings(paths) + rest.value)
      case OtherCall => rest
      case BadArgs => Raises
  }

  function PathsOf(m: Message): Scan<seq<string>> {
    match m
    case Ai(_, CallList(calls)) => CallPaths(calls)
    case Ai(_, NotIterable(_)) => Raises
    case _ => Value([])
  }

  function Artifacts(ms: seq<Message>): Scan<seq<string>> {
    if ms == [] || EndsTurn(ms[|ms| - 1]) then Value([])
    else
      var m, rest := PathsOf(ms[|ms| - 1]), Artifacts(ms[..|ms| - 1]);
      if m.Raises? || rest.Raises? then Raises else Value(m.value + rest.value)
  }

  /** The paths of one call are taken in order, without those that are no strings. */
  lemma {:induction false} PathsInOrder(a: seq<Option<string>>, b: seq<Option<string>>, path: string)
    ensures Strings(a + b) == Strings(a) + Strings(b)
    ensures Strings([Some(path)]) == [path] && Strings([None]) == []
  {
    if a == [] {
      assert a + b == b;
    } else {
      assert (a + b)[1..] == a[1..] + b;
      PathsInOrder(a[1..], b, path);
    }
  }

  /** The calls of one message are taken in order, and only those that present files count. */
  lemma {:induction false} CallsInOrder(a: seq<ToolCall>, b: seq<ToolCall>)
    ensures
      var first, second := CallPaths(a), CallPaths(b);
      CallPaths(a + b) == if first.Raises? || second.Raises? then Raises else Value(first.value + second.value)
  {
    hide Strings;
    if a == [] {
      assert a + b == b;
      if CallPaths(b).Value? { assert CallPaths(a).value + CallPaths(b).value == CallPaths(b).value; }
    } else {
      assert (a + b)[1..] == a[1..] + b;
      CallsInOrder(a[1..], b);
      var rest, second := CallPaths(a[1..]), CallPaths(b);
      if CallPaths(a).Value? && second.Value? && a[0].PresentFiles? {
        var paths := Strings(a[0].paths);
        assert paths + (rest.value + second.value) == (paths + rest.value) + second.value;
      }
    }
  }

  lemma OneCall(paths: seq<Option<string>>)
    ensures CallPaths([PresentFiles(paths)]) == Value(Strings(paths)) && CallPaths([OtherCall]) == Value([])
  {
    assert [PresentFiles(paths)][1..] == [] && [OtherCall][1..] == [];
    assert Strings(paths) + [] == Strings(paths);
  }

  lemma {:induction false} ArtifactsForgetPast(past: seq<Message>, turn: seq<Message>)
    ensures Artifacts(past + [Human(false)] + turn) == Artifacts(turn)
  {
    var ms := past + [Human(false)] + turn;
    if turn == [] {
      assert ms[|ms| - 1] == Human(false);
    } else {
      assert ms[..|ms| - 1] == past + [Human(false)] + turn[..|turn| - 1];
      ArtifactsForgetPast(past, turn[..|turn| - 1]);
    }
  }

  /** Exactly the paths presented in the current turn are returned. */
  lemma {:induction false} ArtifactsAreTurnPaths(ms: seq<Message>, path: string)
    requires Artifacts(ms).Value?
    ensures forall i :: TurnStart(ms) <= i < |ms| ==> PathsOf(ms[i]).Value?
    ensures path in Artifacts(ms).value <==>
            exists i :: TurnStart(ms) <= i < |ms| && PathsOf(ms[i]).Value? && path in PathsOf(ms[i]).value
  {
    if ms != [] && !EndsTurn(ms[|ms| - 1]) {
      var n := |ms| - 1;
      ArtifactsAreTurnPaths(ms[..n], path);
      assert forall i :: 0 <= i < n ==> ms[..n][i] == ms[i];
      if path in Artifacts(ms[..n]).value {
        var i :| TurnStart(ms[..n]) <= i < n && PathsOf(ms[..n][i]).Value? && path in PathsOf(ms[..n][i]).value;
        assert path in PathsOf(ms[i]).value;
      } else if path in PathsOf(ms[n]).value {
        assert TurnStart(ms) <= n < |ms|;
      }
    }
  }

  /** Later messages come first, and every path counts as often as it was presented. */
  lemma {:induction false} ArtifactsInOrder(before: seq<Message>, after: seq<Message>)
    requires Artifacts(before + after).Value? && forall i :: 0 <= i < |after| ==> !EndsTurn(after[i])
    ensures Artifacts(before).Value? && Artifacts(after).Value?
    ensures Artifacts(before + after).value == Artifacts(after).value + Artifacts(before).value
  {
    if after == [] {
      assert before + after == before;
    } else {
      var n := |after| - 1;
      assert (before + after)[..|before| + n] == before + after[..n];
      ArtifactsInOrder(before, after[..n]);
      var last := PathsOf(after[n]).value;
      assert last + (Artifacts(after[..n]).value + Artifacts(before).value)
             == (last + Artifacts(after[..n]).value) + Artifacts(before).value;
    }
  }

  /** A single message contributes its own paths. */
  lemma ArtifactsOfOne(m: Message)
    requires !EndsTurn(m)
    ensures Artifacts([m]) == PathsOf(m)
  {
    var none: seq<string> := [];
    assert [m][..0] == [] && Artifacts([]) == Value(none);
    if PathsOf(m).Value? { assert PathsOf(m).value + none == PathsOf(m).value; }
  }

  function Prepend(found: seq<string>, rest: Scan<seq<string>>): Scan<seq<string>> {
    if rest.Raises? then Raises else Value(found + rest.value)
  }

  lemma ArtifactsStep(ms: seq<Message>, i: nat, found: seq<string>)
    requires i < |ms|
    ensures
      var after, more := Artifacts(ms[..i + 1]), PathsOf(ms[i]);
      if ms[i] == Human(false) then after == Value([])
      else if more.Raises? then after == Raises
      else Prepend(found, after) == Prepend(found + more.value, Artifacts(ms[..i]))
  {
    hide PathsOf;
    assert ms[..i + 1][..i] == ms[..i];
    var more, rest := PathsOf(ms[i]), Artifacts(ms[..i]);
    if more.Value? && rest.Value? { assert found + (more.value + rest.value) == (found + more.value) + rest.value; }
  }

  method ExtractArtifacts(ms: seq<Message>) returns (paths: Scan<seq<string>>)
    ensures paths == Artifacts(ms)
  {
    var found: seq<string> := [];
    var i := |ms|;
    assert ms[..i] == ms && (Artifacts(ms).Value? ==> found + Artifacts(ms).value == Artifacts(ms).value);
    while i > 0
      invariant 0 <= i <= |ms|
      invariant Artifacts(ms) == Prepend(found, Artifacts(ms[..i]))
    {
      hide PathsOf, Artifacts;
      i := i - 1;
      ArtifactsStep(ms, i, found);
      if ms[i] == Human(false) { break; }
      var more := PathsOf(ms[i]);
      if more.Raises? { return Raises; }
      found := found + more.value;
    }
    assert found + [] == found;
    return Value(found);
  }

  /******* When a scan raises *******/

  /** An AI message whose block list holds a text block without a text. */
  predicate BadText(m: Message) {
    m.Ai? && m.content.Blocks? && TextBlock(None) in m.content.blocks
  }

  /** An AI message whose tool calls cannot be iterated, or with a present_files call without fields. */
  predicate BadCalls(m: Message) {
    m.Ai? && (m.calls.NotIterable? || BadArgs in m.calls.calls)
  }

  lemma {:induction false} JoinRaisesIff(blocks: seq<Block>)
    ensures JoinBlocks(blocks).Raises? <==> TextBlock(None) in blocks
  {
    if blocks != [] {
      JoinRaisesIff(blocks[1..]);
      assert blocks == [blocks[0]] + blocks[1..];
    }
  }

  lemma {:induction false} CallsRaiseIff(calls: seq<ToolCall>)
    ensures CallPaths(calls).Raises? <==> BadArgs in calls
  {
    if calls != [] {
      CallsRaiseIff(calls[1..]);
      assert calls == [calls[0]] + calls[1..];
    }
  }

  lemma TextRaisesIff(m: Message)
    ensures TextOf(m).Raises? <==> BadText(m)
  {
    if m.Ai? && m.content.Blocks? { JoinRaisesIff(m.content.blocks); }
  }

  lemma PathsRaiseIff(m: Message)
    ensures PathsOf(m).Raises? <==> BadCalls(m)
  {
    if m.Ai? && m.calls.CallList? { CallsRaiseIff(m.calls.calls); }
  }

  /** Reading the response raises exactly if the last message of the turn with anything to say is malformed. */
  lemma ResponseRaisesIff(ms: seq<Message>)
    ensures Response(ms).Raises? <==>
            exists i :: TurnStart(ms) <= i < |ms| && BadText(ms[i])
                        && forall j :: i < j < |ms| ==> TextOf(ms[j]) == Value("")
  {
    ResponseIsLastText(ms);
    forall m { TextRaisesIff(m); }
    if i :| TurnStart(ms) <= i < |ms| && BadText(ms[i]) && forall j :: i < j < |ms| ==> TextOf(ms[j]) == Value("") {
      assert TextOf(ms[i]).Raises?;
      var k :| TurnStart(ms) <= k < |ms| && TextOf(ms[k]) == Response(ms)
               && forall j :: k < j < |ms| ==> TextOf(ms[j]) == Value("");
      assert k == i;
    }
  }

  /** Collecting artifacts raises exactly if some message of the turn has malformed calls. */
  lemma {:induction false} ArtifactsRaiseIff(ms: seq<Message>)
    ensures Artifacts(ms).Raises? <==> exists i :: TurnStart(ms) <= i < |ms| && BadCalls(ms[i])
  {
    if ms != [] && !EndsTurn(ms[|ms| - 1]) {
      var n := |ms| - 1;
      PathsRaiseIff(ms[n]);
      ArtifactsRaiseIff(ms[..n]);
      assert forall i :: 0 <= i < n ==> ms[..n][i] == ms[i];
      if BadCalls(ms[n]) { assert TurnStart(ms) <= n < |ms|; }
      if Artifacts(ms[..n]).Raises? {
        var i :| TurnStart(ms[..n]) <= i < n && BadCalls(ms[..n][i]);
        assert BadCalls(ms[i]);
      }
    }
  }

  /******* Clarification *******/

  predicate HasContent(c: Content) {
    match c
    case Text(t) => t != ""
    case Blocks(blocks) => blocks != []
    case Other(truthy) => truthy
  }

  predicate HasCalls(c: Calls) {
    match c
    case CallList(calls) => calls != []
    case NotIterable(truthy) => truthy
  }

  /** The last message that settles the question, looking back to the last human message of any kind. */
  function LastWord(ms: seq<Message>): Option<Message> {
    if ms == [] || ms[|ms| - 1].Human? then None
    else
      var m := ms[|ms| - 1];
      if m.Tool? || (m.Ai? && (HasContent(m.content) || HasCalls(m.calls))) then Some(m)
      else LastWord(ms[..|ms| - 1])
  }

  predicate Clarifies(ms: seq<Message>) {
    LastWord(ms).Some? && LastWord(ms).value.Tool? && LastWord(ms).value.name == CLARIFICATION_TOOL
  }

  method HasCurrentTurnClarification(ms: seq<Message>) returns (clarifies: bool)
    ensures clarifies == Clarifies(ms)
  {
    var i := |ms|;
    assert ms[..i] == ms;
    while i > 0
      invariant 0 <= i <= |ms| && LastWord(ms) == LastWord(ms[..i])
    {
      i := i - 1;
      assert ms[..i + 1][..i] == ms[..i];
      match ms[i]
      case Human(_) => break;
      case Tool(name, _) => return name == CLARIFICATION_TOOL;
      case Ai(content, calls) =>
        if HasContent(content) || HasCalls(calls) { return false; }
      case _ =>
    }
    return false;
  }

  /** Nothing said and nothing called. */
  predicate Silent(m: Message) {
    || m.OtherMessage? || m.NotAMessage?
    || (m.Ai? && m.content in {Text(""), Blocks([]), Other(false)} && m.calls in {CallList([]), NotIterable(false)})
  }

  lemma SilentIs(m: Message)
    ensures Silent(m) <==> !m.Human? && !m.Tool? && !(m.Ai? && (HasContent(m.content) || HasCalls(m.calls)))
  {
    if m.Ai? {
      assert m.content.Text? && m.content.text == "" ==> m.content == Text("");
      assert m.content.Blocks? && m.content.blocks == [] ==> m.content == Blocks([]);
      assert m.calls.CallList? && m.calls.calls == [] ==> m.calls == CallList([]);
    }
  }

  /** The turn ends in a clarification exactly if its question is followed by nothing but silence. */
  lemma {:induction false} ClarifiesIff(ms: seq<Message>)
    ensures Clarifies(ms) <==>
            exists i :: 0 <= i < |ms| && ms[i].Tool? && ms[i].name == "ask_clarification"
                        && forall j :: i < j < |ms| ==> Silent(ms[j])
  {
    if ms != [] {
      hide Silent, HasContent, HasCalls;
      var n := |ms| - 1;
      SilentIs(ms[n]);
      ClarifiesIff(ms[..n]);
      assert forall i :: 0 <= i < n ==> ms[..n][i] == ms[i];
    }
  }

  /**
   The clarification flag and the response text are computed apart but agree: when the flag is set and the
   question is non-empty text, that text is the response.
   */
  lemma {:induction false} ClarificationIsResponse(ms: seq<Message>)
    requires Clarifies(ms) && LastWord(ms).value.content.Text? && LastWord(ms).value.content.text != ""
    ensures Response(ms) == Value(LastWord(ms).value.content.text)
  {
    var n := |ms| - 1;
    if !ms[n].Tool? {
      ClarificationIsResponse(ms[..n]);
      assert TextOf(ms[n]) == Value("");
    }
  }
}
