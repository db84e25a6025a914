# Design-pattern demo: iterator, singleton and template method

`Main.java` of the repository demonstrates eight classic design patterns. Most of them
are a single print statement. Three have behaviour that can be stated, and this project
models those three and proves properties of them:

- **`StakeholderIterator`** (module `StakeholderIterator`). This is a single-pass cursor
  over a fixed list. It has two states, *has-next* and *exhausted*. `next` returns the
  current element and moves one place on. Once the list is used up, `next` returns the
  `null` sentinel on every later call, as long as nobody changes the list while the
  iterator holds it. The model is generic over the element type,
  because the stakeholder class is never defined. The list and index become the
  datatype `Iterator<T>`, and `next` returns a `Step` that holds the iterator afterwards
  and an `Option<T>`. `None` stands for `null`.
- **`Settings`** (module `SettingsSingleton`). This is a lazily created singleton holding
  a theme that starts as `"Default"`, with a plain get/set pair. The Java static field is
  modelled as an explicit state, `StaticState(instance: Option<Settings>)`, that every
  call threads through. Client calls of the form `Settings.getInstance().getTheme()` and
  `Settings.getInstance().setTheme(t)` are modelled as a sequence of `Call`s run by
  `Exec`. `LatestTheme` is an independent reference for them: it gives the most recent
  theme written.
- **`CommunicationTemplate.communicate`** (module `CommunicationTemplate`). This is a
  `final` template method that runs `openChannel`, `sendMessage` and `closeChannel` in
  that order. Console output is modelled as a trace (`seq<string>`) in which each
  `println` argument is one element. The
  variants are the datatype `Channel`; the program defines one variant, `Email`.
  `ParseSession` is the inverse of one call: it accepts exactly an open, send and close
  string, in that order, and recovers the payload. Below, a "line" of the trace means
  one `println` argument.

All source paths below are in `FA23LabFinal/Main/src/main/Main.java`.

## Model

| member | source | states |
|---|---|---|
| StakeholderIterator.New | FA23LabFinal/Main/src/main/Main.java:101-104 | A fresh iterator holds the given list unchanged, starts at index 0 and satisfies the index invariant. It is in the has-next state exactly when the list is non-empty. |
| StakeholderIterator.Next | FA23LabFinal/Main/src/main/Main.java:106-112 | In the has-next state, `next` returns the element at `index` and raises `index` by exactly one. In the exhausted state it returns the sentinel and leaves the iterator unchanged. It returns a non-sentinel exactly when the iterator had a next element. It never modifies the list, and it preserves `index <= size`. |
| StakeholderIterator.Run | FA23LabFinal/Main/src/main/Main.java:98-112 | Any number of successive `next` calls gives one answer per call, never modifies the list, and keeps `0 <= index <= size`. |
| StakeholderIterator.RunYieldsRemainingThenSentinel | FA23LabFinal/Main/src/main/Main.java:98-112 | For every valid iterator and every number of calls k, the calls return the elements still ahead of the cursor in list order, then only the sentinel. This agrees with an independent reference that does not run the machine. The index ends at min(index + k, size). |
| StakeholderIterator.SinglePassInOrder | FA23LabFinal/Main/src/main/Main.java:106-112 | On a fresh iterator over N elements, the first N calls return the elements in their original order. Call N+1 returns the sentinel and leaves the iterator exhausted at index N. |
| StakeholderIterator.ExhaustedStaysExhausted | FA23LabFinal/Main/src/main/Main.java:109-111 | Exhaustion is terminal: after it, every later call returns the sentinel and the iterator does not change. |
| StakeholderIterator.IndexMonotone | FA23LabFinal/Main/src/main/Main.java:106-112 | The index never moves backwards and never passes the list size. It grows by at most one per call, so it never wraps or resets. |
| StakeholderIterator.DrainUntilSentinel | FA23LabFinal/Main/src/main/Main.java:183-186 | The loop `while (iterator.next() != null)` over a fresh iterator makes exactly size + 1 calls. It is handed every element in order and leaves the iterator exhausted. |
| StakeholderIterator.TwoElementScenario | FA23LabFinal/Main/src/main/Main.java:183-186 | An iterator built from a two-element list yields the first element, then the second, then the sentinel on the third call. |
| SettingsSingleton.GetInstance | FA23LabFinal/Main/src/main/Main.java:15-25 | The first call creates the instance with theme "Default" and stores it in the static state. Every later call returns the stored instance and leaves the state exactly as it was. |
| SettingsSingleton.GetTheme | FA23LabFinal/Main/src/main/Main.java:27-29 | `getTheme` is a plain load. It returns the theme every reader of the state sees, and storing the value it returned changes nothing. `SetThenGetTheme` reads a stored value back through it. |
| SettingsSingleton.SetTheme | FA23LabFinal/Main/src/main/Main.java:31-33 | `setTheme(t)` is a plain store with no validation. Afterwards the instance is still in place and the theme every reader sees is `t`. |
| SettingsSingleton.SetThenGetTheme | FA23LabFinal/Main/src/main/Main.java:27-33 | `getTheme` after `setTheme(t)` returns `t`, and a second `setTheme` fully overrides the first. |
| SettingsSingleton.GetInstanceNeverResets | FA23LabFinal/Main/src/main/Main.java:20-33 | After a theme is set, asking for the instance again returns that theme, not the default. |
| SettingsSingleton.Apply | FA23LabFinal/Main/src/main/Main.java:20-33 | One call `Settings.getInstance().getTheme()` or `Settings.getInstance().setTheme(t)` leaves the instance in place. A read returns the current theme, which is the default on a fresh process, and changes nothing except creating the instance. A write makes `t` the current theme and returns nothing. |
| SettingsSingleton.Exec | FA23LabFinal/Main/src/main/Main.java:20-33 | A sequence of such client calls gives one answer per call, and the instance exists afterwards as soon as any call has been made. |
| SettingsSingleton.ExecReadsLatestWrite | FA23LabFinal/Main/src/main/Main.java:15-33 | For every sequence of client calls through `getInstance`, each read returns the theme written most recently before it. With no earlier write it returns "Default" on a fresh process, or the theme already held. Writes return nothing, and the final state holds the last theme written. |
| SettingsSingleton.FreshProcessReadsDefault | FA23LabFinal/Main/src/main/Main.java:170-171 | On a fresh process, `getInstance().getTheme()` reads "Default". |
| SettingsSingleton.ReadIsStable | FA23LabFinal/Main/src/main/Main.java:27-29 | Two reads with no write in between return the same theme. |
| CommunicationTemplate.Communicate | FA23LabFinal/Main/src/main/Main.java:117-121 | Every call appends exactly three `println` arguments and keeps the earlier output. The lines are open, send and close, in that fixed order. The open and close lines do not depend on the payload. The middle line is the variant's send prefix followed by the payload. |
| CommunicationTemplate.ParseSessionOfCommunicate | FA23LabFinal/Main/src/main/Main.java:117-148 | Every session's output parses back to its own payload. |
| CommunicationTemplate.ParseSessionOnlyOfCommunicate | FA23LabFinal/Main/src/main/Main.java:117-148 | Any trace that parses to a payload is exactly the session `communicate` produces for that payload. No other order or number of `println` calls counts as a session. |
| CommunicationTemplate.StepsDistinct | FA23LabFinal/Main/src/main/Main.java:133-148 | The strings printed by the open, send and close steps are pairwise different for every payload. Each one occurs exactly once among a call's `println` arguments. |
| CommunicationTemplate.EmailSession | FA23LabFinal/Main/src/main/Main.java:133-148 | For the email variant, `communicate(m)` prints exactly "Opening email channel", then "Sending email: " + m, then "Closing email channel". This fixes the output of the step functions `OpenLine`, `SendLine` and `CloseLine`, which model `openChannel`, `sendMessage` and `closeChannel`. |
| CommunicationTemplate.ImportantMessageScenario | FA23LabFinal/Main/src/main/Main.java:188-189 | `communicate("Important message")` on the email variant prints exactly the three expected lines. |

## Left out

- Console output (`System.out.println`) is not modelled as I/O. Instead, each `println` argument becomes one element of a `seq<string>` trace.
- Physical console lines are not modelled. `sendMessage` prints the payload unchecked. A payload holding a line terminator prints more than one console line, and it can even print what looks like a second session. So the line counts in `Communicate` and `StepsDistinct`, and `ParseSession`, describe `println` calls, not physical lines.
- `ConcreteMediator`, `ExamSystemFacade` with `MessageBuilder`, `OnlineExamStrategy` and `OfflineExamStrategy`, and `ConcreteRealTimeObserver` are left out. Each one only prints a fixed line and has no logic to state. The mediator's line also depends on Java's `toString` of an arbitrary `Object`, which the source does not define.
- The stakeholder, case-management and system classes are left out. They are referenced but never defined (Main.java:165), so the element type is a type parameter instead.
- The Java static field and JVM class loading behind the singleton are left out. The singleton is modelled as explicitly threaded state (`StaticState`), not as a global.
- `main` is not modelled as a driver. Only the scenarios it runs are kept: the first theme read, the iteration loop, and the email call.
- Null elements inside the stakeholder list are not modelled. In Java, a `null` element would be indistinguishable from the sentinel and would stop `main`'s loop early. The model's `Option` keeps the two apart. The list in `main` is built with `List.of`, which rejects nulls, so the loop it runs is unaffected.
- Java's 32-bit `int` index is not modelled. `List.size()` is capped at `Integer.MAX_VALUE`, and `index++` runs only when `index < size()`, so the index cannot overflow.
- Changes to the stakeholder list made by others are not modelled. The Java iterator keeps a reference to the caller's `List`, not a copy, and reads `size()` again on every call. With a mutable list, appending after exhaustion would make `next` return elements again. Removing elements could push `index` past `size()`. The model holds the list as an immutable sequence, so "exhaustion is terminal" and "`index <= size`" are promised only for a list nobody else changes. `main` passes the immutable `List.of`.
- Java `null` arguments are not modelled, because a `string` or `seq` cannot be null. In Java, `setTheme(null)` stores null and `getTheme` then returns it. `communicate(null)` prints "Sending email: null", so parsing that line would give back the text "null", not null. `new StakeholderIterator(null)` throws on the first `next`.
- Concurrency is left out: the program has none, and the singleton has no guard.
