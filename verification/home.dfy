/**
 The view state of the home component (src/app/home/home.component.ts):
 a click counter, the list of posted messages, and the public text buffer
 `newMessage` that `addMessage` reads, with the component's three handlers
 as pure transitions from one state to the next.
 */
module Home {
  import JsString
  import JsArray

  datatype ViewState = ViewState(counter: int, messages: seq<string>, newMessage: string)

  /**
   The state a freshly created component starts in: no clicks, no messages,
   an empty buffer; it already satisfies the no-blank-message invariant.
   */
  function Init(): (st: ViewState)
    ensures st.counter == 0 && |st.messages| == 0 && |st.newMessage| == 0
    ensures Valid(st)
  {
    ViewState(0, [], "")
  }

  /** The invariant of the message list: no posted message is blank. */
  predicate Valid(st: ViewState) {
    forall m :: m in st.messages ==> !JsString.IsBlank(m)
  }

  /** `incrementCounter()`: the counter goes up by one, nothing else moves. */
  function IncrementCounter(st: ViewState): (r: ViewState)
    ensures r.counter == st.counter + 1
    ensures r.messages == st.messages && r.newMessage == st.newMessage
  {
    st.(counter := st.counter + 1)
  }

  /**
   `addMessage()`: when the buffer has a non-whitespace character, post it
   unchanged (untrimmed) and clear the buffer; otherwise do nothing.
   */
  function AddMessage(st: ViewState): (r: ViewState)
    ensures r.counter == st.counter
    ensures JsString.IsBlank(st.newMessage) ==> r == st
    ensures !JsString.IsBlank(st.newMessage) ==>
              r.messages == st.messages + [st.newMessage] && r.newMessage == ""
  {
    JsString.HasContentIffNotBlank(st.newMessage);
    if JsString.HasContent(st.newMessage) then
      st.(messages := st.messages + [st.newMessage], newMessage := "")
    else
      st
  }

  /**
   `removeMessage(index)`: `messages.splice(index, 1)`. An index in range
   deletes that message; an index at or past the end deletes nothing; a
   negative index counts back from the end, and one beyond the front deletes
   the first message.
   */
  function RemoveMessage(st: ViewState, index: int): (r: ViewState)
    ensures r.counter == st.counter && r.newMessage == st.newMessage
    ensures 0 <= index < |st.messages| ==>
              r.messages == st.messages[..index] + st.messages[index + 1..]
    ensures index >= |st.messages| ==> r.messages == st.messages
    ensures index < 0 && |st.messages| > 0 ==>
              var k := if |st.messages| + index < 0 then 0 else |st.messages| + index;
              r.messages == st.messages[..k] + st.messages[k + 1..]
    ensures |st.messages| == 0 ==> r.messages == []
  {
    st.(messages := JsArray.Splice(st.messages, index, 1).remaining)
  }

  /** A removal shortens the list by one exactly when it deletes anything. */
  lemma RemoveMessageLength(st: ViewState, index: int)
    ensures |RemoveMessage(st, index).messages| ==
              if |st.messages| > 0 && index < |st.messages| then |st.messages| - 1
              else |st.messages|
    ensures RemoveMessage(st, index).messages == st.messages <==>
              (|st.messages| == 0 || index >= |st.messages|)
  {
  }

  /** Every message left after a removal was already in the list. */
  lemma RemoveMessageKeeps(st: ViewState, index: int)
    ensures multiset(RemoveMessage(st, index).messages) <= multiset(st.messages)
    ensures forall m :: m in RemoveMessage(st, index).messages ==> m in st.messages
  {
    JsArray.SplicePermutes(st.messages, index, 1);
    var r := RemoveMessage(st, index).messages;
    forall m | m in r
      ensures m in st.messages
    {
      assert m in multiset(r);
    }
  }

  lemma IncrementCounterPreservesValid(st: ViewState)
    requires Valid(st)
    ensures Valid(IncrementCounter(st))
  {
  }

  lemma AddMessagePreservesValid(st: ViewState)
    requires Valid(st)
    ensures Valid(AddMessage(st))
  {
  }

  lemma RemoveMessagePreservesValid(st: ViewState, index: int)
    requires Valid(st)
    ensures Valid(RemoveMessage(st, index))
  {
  }

  /** A second `addMessage()` right after the first finds the buffer empty. */
  lemma AddMessageIdempotent(st: ViewState)
    ensures AddMessage(AddMessage(st)) == AddMessage(st)
  {
  }
}
