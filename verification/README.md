# Home view state of angular-deploy, in Dafny

This project models the state of the `HomeComponent` of the application
(`src/app/home/home.component.ts`). The component holds three fields:

- `counter`, a click counter that starts at 0;
- `messages`, the list of posted messages, which starts empty;
- `newMessage`, a public text buffer that starts empty. The class itself only
  ever sets it to `""`, but `addMessage` reads it, so code outside the class
  must write it. In an Angular component that is presumably an input binding
  in the view, but the view is not part of this model.

It also has three handlers:

- `incrementCounter()` adds one to the counter.
- `addMessage()` posts the buffer, untrimmed, and clears it. It does this only
  when `newMessage.trim()` is non-empty. Otherwise it does nothing.
- `removeMessage(index)` calls `messages.splice(index, 1)`.

The state is the immutable datatype `Home.ViewState`. Each handler is a pure
function from one state to the next.

The two built-ins the handlers rely on are modelled from ECMA-262 (2022 edition):

- `String.prototype.trim` (section 22.1.3.30) is `JsString.Trim`. Its character
  set is WhiteSpace (section 12.2) together with LineTerminator (section 12.3).
  Its truthiness in an `if` is ToBoolean (section 7.1.2).
- `Array.prototype.splice` without inserted items (section 23.1.3.29) is
  `JsArray.Splice`. It includes the normalisation of the start and the
  clamping of the delete count.

Files:

- `js_string.dfy` (module `JsString`): trimmable characters, the trim scan,
  and blankness.
- `js_array.dfy` (module `JsArray`): `splice` with start and delete count.
- `home.dfy` (module `Home`): the view state and its three handlers, the
  no-blank-message invariant, and per-handler properties.
- `home_runs.dfy` (module `HomeRuns`): event sequences, and properties of
  whole runs. A run also includes `Edit(text)`, which stands for any write of
  the public `newMessage` field from outside the class.

Main results:

- The invariant "every posted message has a non-whitespace character" holds
  in every reachable state (`HomeRuns.ReachableValid`).
- The counter equals its start value plus the number of clicks
  (`HomeRuns.RunCounter`).
- `addMessage` is idempotent.
- `removeMessage` deletes exactly one message when the list is non-empty and
  the index is below its length. Otherwise it deletes nothing. A negative
  index counts back from the end.

## Model

| member | source | states |
|---|---|---|
| JsString.IsTrimmable | src/app/home/home.component.ts:22 | the characters `trim` strips include space, tab, LF and CR, exclude every ASCII letter and digit, and all lie in the Basic Multilingual Plane |
| JsString.HasContent | src/app/home/home.component.ts:22 | the guard `if (newMessage.trim())` passes exactly when some character of the buffer is not trimmable |
| JsString.Trim | src/app/home/home.component.ts:22 | `trim()` returns a slice `s[i..j]` of its input. Only trimmable characters lie outside the slice, and the slice neither starts nor ends with one |
| JsString.TrimEmptyIffBlank | src/app/home/home.component.ts:22 | the trimmed buffer is empty exactly when every character of the buffer is WhiteSpace or LineTerminator |
| JsString.HasContentIffNotBlank | src/app/home/home.component.ts:22 | the guard `if (newMessage.trim())` passes exactly when the buffer is not blank, which is the condition `addMessage` is specified by |
| JsString.TrimIdempotent | src/app/home/home.component.ts:22 | trimming a trimmed string changes nothing |
| JsArray.ActualStart | src/app/home/home.component.ts:29 | the splice start is in `[0, len]`. An in-range start is kept, a start past the end becomes `len`, a negative start counts back from `len`, and one beyond the front becomes 0 |
| JsArray.ActualDeleteCount | src/app/home/home.component.ts:29 | the delete count is clamped to `[0, len - actualStart]`. A count of zero or less deletes nothing, a count that fits is honoured exactly, and a count past the end deletes exactly up to the end |
| JsArray.Splice | src/app/home/home.component.ts:29 | `splice` keeps the prefix before the normalised start and removes a clamped run there. The rest shifts left, and the length drops by the number removed |
| JsArray.SpliceRestore | src/app/home/home.component.ts:29 | putting the removed elements back at the normalised start restores the original array |
| JsArray.SplicePermutes | src/app/home/home.component.ts:29 | the remaining and removed elements together are a permutation of the original array |
| JsArray.SpliceOneRemovesIff | src/app/home/home.component.ts:29 | `splice(index, 1)` removes one element exactly when the array is non-empty and `index < len`. Otherwise it removes none |
| Home.IncrementCounter | src/app/home/home.component.ts:17-19 | the counter rises by one, and the messages and the buffer are unchanged |
| Home.AddMessage | src/app/home/home.component.ts:21-26 | with a blank buffer, nothing changes. Otherwise the untrimmed buffer is appended to the messages and the buffer is cleared. The counter never moves |
| Home.RemoveMessage | src/app/home/home.component.ts:28-30 | an in-range index deletes that message and leaves the rest in order. An index at or past the end deletes nothing. A negative index deletes the message at `max(len + index, 0)`. The counter and buffer are unchanged |
| Home.RemoveMessageLength | src/app/home/home.component.ts:28-30 | removal shortens the list by exactly one when it is non-empty and the index is below its length. Otherwise the list is unchanged, in both directions |
| Home.RemoveMessageKeeps | src/app/home/home.component.ts:29 | after a removal, the messages form a sub-multiset of the messages before it |
| Home.Init | src/app/home/home.component.ts:13-15 | the initial state has counter 0, no messages and an empty buffer, and satisfies the no-blank-message invariant |
| Home.IncrementCounterPreservesValid | src/app/home/home.component.ts:17-19 | a click keeps every message non-blank |
| Home.AddMessagePreservesValid | src/app/home/home.component.ts:22-23 | the guard lets only non-blank messages in |
| Home.RemoveMessagePreservesValid | src/app/home/home.component.ts:29 | a removal only deletes, so every message stays non-blank |
| Home.AddMessageIdempotent | src/app/home/home.component.ts:21-26 | a second `addMessage()` right after the first changes nothing |
| HomeRuns.Step | src/app/home/home.component.ts:17-30 | one event dispatches to a handler or writes the buffer. Only add and edit touch the buffer, only add and remove touch the list, an add grows the list by at most one, and a removal never grows it |
| HomeRuns.ClicksAddN | src/app/home/home.component.ts:17-19 | `n` clicks in a row raise the counter by exactly `n` and change nothing else |
| HomeRuns.StepCounter | src/app/home/home.component.ts:17-19 | no event lowers the counter. A click raises it by one, and every other event leaves it unchanged |
| HomeRuns.StepPreservesValid | src/app/home/home.component.ts:17-29 | every event, including a buffer edit, preserves the no-blank-message invariant |
| HomeRuns.RunPreservesValid | src/app/home/home.component.ts:17-29 | the invariant holds after any sequence of events from a valid state |
| HomeRuns.ReachableValid | src/app/home/home.component.ts:13-29 | every state reachable from a fresh component has only non-blank messages |
| HomeRuns.RunCounter | src/app/home/home.component.ts:17-19 | after a run, the counter is its start value plus the number of clicks, so it never decreases |
| HomeRuns.RunMessagesBound | src/app/home/home.component.ts:21-30 | a run lengthens the list by at most one message per add click |
| HomeRuns.RunMessagesOrigin | src/app/home/home.component.ts:23 | every message after a run was already posted, or it is a non-blank text that was in the buffer at the start or was written into it during the run |
| HomeRuns.SampleSession | src/app/home/home.component.ts:17-30 | from an empty list, two clicks, then submitting non-blank `x`, then "", then non-blank `y`, then removing index 0, gives counter +2, messages `[y]` and an empty buffer |
| HomeRuns.SampleSessionFromInit | src/app/home/home.component.ts:13-30 | the same session from a fresh component with "a" and "b" ends in counter 2, messages `["b"]` and an empty buffer |

## Left out

- The `@Component` decorator, its imports, the template and the style sheet
  (lines 1-11) are not modelled. Change detection and the mechanics of
  any view binding are not modelled either. A run models only outside writes
  of the public buffer: `Edit(text)` assigns `newMessage`.
- Home.IncrementCounter: `counter` is a JavaScript number, an IEEE double. The
  model uses an unbounded integer, so it ignores the loss of precision after
  2^53 clicks.
- Home.RemoveMessage: `index` is a JavaScript number. The model takes it as an
  integer. Fractional, NaN and infinite values go through ToIntegerOrInfinity
  in `splice`, and that conversion is not modelled.
- JsArray.Splice: the model covers deletion only. Inserting items is not
  modelled, because the component never inserts. Species construction of the
  returned array and the length-overflow TypeError are also not modelled; a
  deletion cannot trigger the TypeError.
- JsString.Trim: strings are sequences of Unicode scalar values, not UTF-16
  code units, so lone surrogates cannot be represented. Every trimmable
  character lies in the Basic Multilingual Plane, so this does not change what
  `trim` removes.
- JsString.IsTrimmable: its space separators are the Unicode Zs category as currently
  defined (U+0020, U+00A0, U+1680, U+2000-U+200A, U+202F, U+205F and U+3000).
  Older Unicode versions also listed U+180E, and the model does not follow
  those versions.
