/**
 Runs of the home view: the three handlers plus outside writes of the
 public `newMessage` field, applied one after another from some state.
 */
module HomeRuns {
  import JsString
  import Home

  /**
   One event. `Edit` is any write of the public `newMessage` field from
   outside the class: the class never sets the buffer to anything but "",
   yet `addMessage` reads it, so some other code must fill it.
   */
  datatype Event = Increment | Add | Remove(index: int) | Edit(text: string)

  /**
   Handling one event. Only `Add` and `Edit` touch the buffer, only `Add`
   and `Remove` touch the list, an add posts at most one message and a
   removal never lengthens the list.
   */
  function Step(st: Home.ViewState, e: Event): (r: Home.ViewState)
    ensures e.Edit? ==> r == st.(newMessage := e.text)
    ensures !e.Add? && !e.Edit? ==> r.newMessage == st.newMessage
    ensures !e.Add? && !e.Remove? ==> r.messages == st.messages
    ensures e.Add? ==> |r.messages| <= |st.messages| + 1
    ensures e.Remove? ==> |r.messages| <= |st.messages|
  {
    match e
    case Increment => Home.IncrementCounter(st)
    case Add => Home.AddMessage(st)
    case Remove(i) => Home.RemoveMessage(st, i)
    case Edit(t) => st.(newMessage := t)
  }

  /** The state after handling `es` in order. */
  function Run(st: Home.ViewState, es: seq<Event>): Home.ViewState
    decreases |es|
  {
    if es == [] then st else Run(Step(st, es[0]), es[1..])
  }

  /** How many of the events are counter clicks. */
  function Increments(es: seq<Event>): nat {
    if es == [] then 0 else (if es[0].Increment? then 1 else 0) + Increments(es[1..])
  }

  /** How many of the events are add clicks. */
  function Adds(es: seq<Event>): nat {
    if es == [] then 0 else (if es[0].Add? then 1 else 0) + Adds(es[1..])
  }

  /** The texts written into the buffer by `Edit` events of `es`. */
  function Written(es: seq<Event>): set<string> {
    if es == [] then {} else (if es[0].Edit? then {es[0].text} else {}) + Written(es[1..])
  }

  /** No event lowers the counter; only a click raises it, and by one. */
  lemma StepCounter(st: Home.ViewState, e: Event)
    ensures Step(st, e).counter == st.counter + (if e.Increment? then 1 else 0)
  {
  }

  /** No event breaks the no-blank-message invariant. */
  lemma StepPreservesValid(st: Home.ViewState, e: Event)
    requires Home.Valid(st)
    ensures Home.Valid(Step(st, e))
  {
  }

  lemma {:induction false} RunPreservesValid(st: Home.ViewState, es: seq<Event>)
    requires Home.Valid(st)
    ensures Home.Valid(Run(st, es))
    decreases |es|
  {
    if es != [] {
      StepPreservesValid(st, es[0]);
      RunPreservesValid(Step(st, es[0]), es[1..]);
    }
  }

  /** Every reachable state satisfies the invariant. */
  lemma ReachableValid(es: seq<Event>)
    ensures Home.Valid(Run(Home.Init(), es))
  {
    RunPreservesValid(Home.Init(), es);
  }

  /** `n` clicks in a row raise the counter by exactly `n` and change nothing else. */
  lemma {:induction false} ClicksAddN(st: Home.ViewState, n: nat)
    ensures Run(st, seq(n, _ => Increment)) == st.(counter := st.counter + n)
    decreases n
  {
    if n > 0 {
      var clicks := seq(n, _ => Increment);
      assert clicks[1..] == seq(n - 1, _ => Increment);
      ClicksAddN(Home.IncrementCounter(st), n - 1);
    }
  }

  /** The counter counts the clicks, so it never decreases along a run. */
  lemma {:induction false} RunCounter(st: Home.ViewState, es: seq<Event>)
    ensures Run(st, es).counter == st.counter + Increments(es)
    ensures Run(st, es).counter >= st.counter
    decreases |es|
  {
    if es != [] {
      StepCounter(st, es[0]);
      RunCounter(Step(st, es[0]), es[1..]);
    }
  }

  /** Each add click posts at most one message. */
  lemma {:induction false} RunMessagesBound(st: Home.ViewState, es: seq<Event>)
    ensures |Run(st, es).messages| <= |st.messages| + Adds(es)
    decreases |es|
  {
    if es != [] {
      var e := es[0];
      if e.Remove? {
        Home.RemoveMessageLength(st, e.index);
      }
      RunMessagesBound(Step(st, e), es[1..]);
    }
  }

  /**
   Messages only come from the buffer: each one was already posted, or it
   is a non-blank text that sat in the buffer at the start or was written
   into it during the run.
   */
  lemma {:induction false} RunMessagesOrigin(st: Home.ViewState, es: seq<Event>)
    ensures forall m :: m in Run(st, es).messages ==>
              m in st.messages
              || (!JsString.IsBlank(m) && (m == st.newMessage || m in Written(es)))
    decreases |es|
  {
    if es != [] {
      var e := es[0];
      var next := Step(st, e);
      if e.Remove? {
        Home.RemoveMessageKeeps(st, e.index);
      }
      RunMessagesOrigin(next, es[1..]);
      assert Written(es) == (if e.Edit? then {e.text} else {}) + Written(es[1..]);
      forall m | m in Run(st, es).messages
        ensures m in st.messages
                || (!JsString.IsBlank(m) && (m == st.newMessage || m in Written(es)))
      {
        assert m in next.messages
               || (!JsString.IsBlank(m) && (m == next.newMessage || m in Written(es[1..])));
      }
    }
  }

  lemma RunCons(st: Home.ViewState, e: Event, es: seq<Event>)
    ensures Run(st, [e] + es) == Run(Step(st, e), es)
  {
  }

  /** Submitting a non-blank text posts it unchanged and clears the buffer. */
  lemma Submit(st: Home.ViewState, text: string)
    requires !JsString.IsBlank(text)
    ensures Run(st, [Edit(text), Add]) == st.(messages := st.messages + [text], newMessage := "")
  {
    RunCons(st, Edit(text), [Add]);
  }

  /** Submitting an empty buffer posts nothing. */
  lemma SubmitEmpty(st: Home.ViewState)
    ensures Run(st, [Edit(""), Add]) == st.(newMessage := "")
  {
  }

  lemma TwoClicks(st: Home.ViewState)
    ensures Run(st, [Increment, Increment]) == st.(counter := st.counter + 2)
  {
  }

  lemma RemoveFirst(st: Home.ViewState)
    requires |st.messages| > 0
    ensures Run(st, [Remove(0)]) == st.(messages := st.messages[1..])
  {
  }

  /**
   Two clicks, then texts `x`, "" and `y` submitted, then the first message
   removed: starting from an empty list, the counter has gone up by two and
   only `y` is left.
   */
  lemma {:induction false} SampleSession(st: Home.ViewState, x: string, y: string)
    requires st.messages == []
    requires !JsString.IsBlank(x) && !JsString.IsBlank(y)
    ensures var r := Run(st, [Increment, Increment, Edit(x), Add, Edit(""), Add,
                               Edit(y), Add, Remove(0)]);
            r.counter == st.counter + 2 && r.messages == [y] && r.newMessage == ""
  {
    var clicks, first, empty, second := [Increment, Increment], [Edit(x), Add], [Edit(""), Add], [Edit(y), Add];
    var remove := [Remove(0)];
    assert [Increment, Increment, Edit(x), Add, Edit(""), Add, Edit(y), Add, Remove(0)]
           == clicks + first + empty + second + remove;
    var s2 := Run(st, clicks);
    var s4 := Run(s2, first);
    var s6 := Run(s4, empty);
    var s8 := Run(s6, second);
    assert s2 == st.(counter := st.counter + 2) by { TwoClicks(st); }
    assert s4 == s2.(messages := [x], newMessage := "") by { Submit(s2, x); }
    assert s6 == s4 by { SubmitEmpty(s4); }
    assert s8 == s4.(messages := [x, y]) by { Submit(s6, y); }
    assert Run(s8, remove) == s4.(messages := [y]) by { RemoveFirst(s8); }
    assert Run(st, clicks + first) == s4 by { RunAppend(st, clicks, first); }
    assert Run(st, clicks + first + empty) == s6 by { RunAppend(st, clicks + first, empty); }
    assert Run(st, clicks + first + empty + second) == s8 by {
      RunAppend(st, clicks + first + empty, second);
    }
    RunAppend(st, clicks + first + empty + second, remove);
  }

  /** The session above from a fresh component, with the texts "a" and "b". */
  lemma SampleSessionFromInit()
    ensures var r := Run(Home.Init(), [Increment, Increment, Edit("a"), Add, Edit(""), Add,
                                        Edit("b"), Add, Remove(0)]);
            r == Home.ViewState(2, ["b"], "")
  {
    var x, y := "a", "b";
    assert !JsString.IsBlank(x) by { assert !JsString.IsTrimmable(x[0]); }
    assert !JsString.IsBlank(y) by { assert !JsString.IsTrimmable(y[0]); }
    SampleSession(Home.Init(), x, y);
  }

  /** Handling two batches of events is handling their concatenation. */
  lemma {:induction false} RunAppend(st: Home.ViewState, xs: seq<Event>, ys: seq<Event>)
    ensures Run(st, xs + ys) == Run(Run(st, xs), ys)
    decreases |xs|
  {
    if xs != [] {
      assert (xs + ys)[0] == xs[0];
      assert (xs + ys)[1..] == xs[1..] + ys;
      RunAppend(Step(st, xs[0]), xs[1..], ys);
    } else {
      assert xs + ys == ys;
    }
  }
}
