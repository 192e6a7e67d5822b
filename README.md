# Reactive cell runtime and ANSI colour helpers, in Dafny

This project models two parts of the repository and proves properties of them.

**The reactive runtime of `sketches/runtime.ts`.** It covers:

- **Channels.** A channel is a value cell. A mutable channel owns a subscriber set (`Dep`); a constant channel has none.
- **The watcher stack.** `activeWatchers` is a process-wide stack of the callbacks currently evaluating.
- **Reads.** Reading a mutable channel while a watcher is on top of the stack subscribes that watcher.
- **Writes.** A write is change-gated: a different value is stored and every subscriber is run, in insertion order. An equal value changes nothing. A constant channel refuses every write.
- **The program context** (`ProcState`):
  - `local` binds a name to a fresh mutable channel;
  - `ref` looks a name up and optionally writes to it;
  - `watch` pushes a callback, runs it and pops it;
  - `yield` makes the output track a channel, wrapping a raw value in a constant channel first.
- **The duration parser `timeToMs`.** It includes JavaScript's `parseInt`, which it uses.

**The colour helpers of `utils/colors.js`.** It covers:

- `ansi(n)`, the SGR escape sequence `ESC [ n m`;
- `color(...mods)`, which puts the modifiers' sequences in front of the text and the reset sequence `ansi(0)` after it;
- the colour codes;
- the derived colourers.

Modules and files:

| file | module | contents |
|---|---|---|
| `wrappers.dfy` | `Wrappers` | `Option` and `Result` |
| `numerals.dfy` | `Numerals` | radix digits, `Value` (the number a digit string denotes), `LeadingDigits` (what `parseInt` consumes), `ToDecimal` (JavaScript's decimal rendering of a non-negative integer) |
| `durations.dfy` | `Durations` | `ParseInt` and `TimeToMs` |
| `colors.dfy` | `Colors` | `Ansi`, `Color`, the constants, the colourers and an SGR decoder (`ParseSgr`/`ParseSgrs`) that partners them |
| `reactive.dfy` | `Reactive` | the classes `Dep`, `WatcherStack`, `Channel` and `ProcState`; the example programs `YieldTracking`, `YieldThenWrite`, `ConstantYield`, `DependencyCapture` and `WatchTwice`; and the setups they share (`DeclareA`, `StartYielding`, `StartWatching`) |

Modelling choices:

- **Callbacks.** Callbacks are known by identity: a watcher is a number.
- **Effects.** What a callback does is described by an `Effect` value:
  - `YieldEffect(ch)` is the callback that `yield` installs; it copies `ch` into `yieldValue`.
  - `ReadEffect(chans)` stands for any other effect body, by the channels it reads.
- **Watcher identities.** A new callback gets the next unused number. The program context keeps every watcher on the stack and in every subscriber set among the callbacks handed out, so a new number is a new callback to all of them. It also keeps each yield callback subscribed to its own channel only. Both facts are part of `ProcState.Valid`.
- **Subscriber sets.** A JavaScript `Set` iterates in insertion order, so a subscriber set is a sequence without duplicates.
- **Where writes run their subscribers.** `Channel.Set` performs the write and hands back the subscribers that `notify` calls. `ProcState.Write` and `ProcState.RunCallbacks` then run them in order, against the program's state.

Where the code differs from what its structure suggests, the model follows the code:

- **Re-runs do not push the stack.** `watch` pushes and pops, but `notify` calls each subscriber directly (`sketches/runtime.ts:67-69`). A re-run's reads therefore subscribe whatever watcher is on top of the stack at the time, and nothing when the stack is empty. `ProcState.RunCallback` models exactly that.
- **The time patterns are not anchored.** `/\d+s/` and `/\d+ms/` search anywhere in the string (`sketches/runtime.ts:5-6`). So `"abc5s"` is accepted, and because `parseInt` finds no digit at its start, it gives `NaN`. `Durations.TimeToMsRefuses` states the unanchored rule.
- **yield reads its channel three times.** `yield` reads the channel once for its log line, once inside the effect, and once for its result (`sketches/runtime.ts:119-125`). All three reads are modelled, with their subscriptions.

## Model

| member | source | states |
|---|---|---|
| Numerals.DigitValue | sketches/runtime.ts:5-6 | a character's digit value is below 10 exactly when it is a decimal digit, and never above 36 |
| Numerals.LeadingDigits | sketches/runtime.ts:5-6 | what parseInt consumes: a prefix of the input made only of radix digits and maximal, so the next character is not a digit |
| Numerals.LeadingDigitsOf | sketches/runtime.ts:5-6 | a digit string followed by a non-digit is consumed exactly |
| Numerals.Value | sketches/runtime.ts:5-6 | the number a string of n radix digits denotes, read most significant digit first, is below radix to the power n |
| Numerals.DigitChar | utils/colors.js:6 | the printed digit is a decimal digit whose value is the given number |
| Numerals.ToDecimal | utils/colors.js:6 | String(n) of a non-negative integer is non-empty, all decimal digits, with no leading zero unless n is 0 |
| Numerals.ValueOfToDecimal | utils/colors.js:6 | reading String(n) back gives n: printing and reading are inverses |
| Numerals.ToDecimalLength | utils/colors.js:6 | String(n) has as many characters as n has decimal digits |
| Numerals.DecimalDigits | sketches/runtime.ts:5-6 | the digits the regular expression class \d accepts are exactly the radix-10 digits parseInt reads |
| Durations.TrimStart | sketches/runtime.ts:5-6 | parseInt's white-space skip removes a prefix made only of JavaScript white space and stops at the first other character |
| Durations.ParseInt | sketches/runtime.ts:5-6 | after the white-space skip, a leading decimal digit that does not open a 0x prefix gives a finite non-negative number; an empty rest, or one starting with neither a digit nor a sign, gives NaN (its exact value on digits is ParseIntLeadingDigits) |
| Durations.ParseIntLeadingDigits | sketches/runtime.ts:5-6 | parseInt of a decimal digit string followed by a non-digit (and not a hex marker) is that string's value |
| Durations.MatchesDigitsThen | sketches/runtime.ts:5-6 | a definition with no contract of its own: /\d+lit/ matches when some run of digits is followed by lit; DigitThenMatches relates it to the scan |
| Durations.DigitThen | sketches/runtime.ts:5-6 | a definition with no contract of its own: the left-to-right scan for a digit followed by lit; DigitThenAt, DigitThenWitness, DigitThenNone and DigitThenMatches state what it decides |
| Durations.DigitThenAt | sketches/runtime.ts:5-6 | a digit right before the literal anywhere in the string makes the pattern scan succeed |
| Durations.DigitThenWitness | sketches/runtime.ts:5-6 | a successful pattern scan has a position where the literal follows a digit |
| Durations.DigitThenNone | sketches/runtime.ts:5-6 | with no such position, the pattern scan fails |
| Durations.DigitThenMatches | sketches/runtime.ts:5-6 | the scan succeeds exactly when the regular expression /\d+lit/ finds a match somewhere in the string |
| Durations.TimeToMs | sketches/runtime.ts:4-8 | the only error is the unsupported-format error, and it carries the refused string |
| Durations.TimeToMsRefuses | sketches/runtime.ts:4-8 | a string is refused exactly when neither /\d+s/ nor /\d+ms/ matches anywhere in it |
| Durations.Seconds | sketches/runtime.ts:5 | "<digits>s" gives the digits' value times 1000 |
| Durations.Milliseconds | sketches/runtime.ts:6 | "<digits>ms" is not taken for seconds and gives the digits' value |
| Durations.ExampleSeconds | sketches/runtime.ts:5 | "5s" gives 5000 |
| Durations.ExampleMilliseconds | sketches/runtime.ts:6 | "250ms" gives 250 |
| Durations.ExampleRefused | sketches/runtime.ts:7 | "5" and "5m" are refused |
| Colors.AnsiRoundTrip | utils/colors.js:6 | ansi(n) is ESC, '[', the decimal digits of n and 'm'; it is 3 characters longer than n's digit count; the decoder reads n back from it and leaves what follows |
| Colors.ParseDecimal | utils/colors.js:6 | ESC [ followed by n's digits and 'm' is read back as n, leaving the rest |
| Colors.ParseSgrsAnsi | utils/colors.js:6 | one SGR sequence in front of a string is read back as its parameter, followed by whatever the string decodes to |
| Colors.Ansi | utils/colors.js:6 | a definition with no contract of its own: ESC [ n m; its layout, length and decoding are stated by AnsiRoundTrip |
| Colors.SgrPrefix | utils/colors.js:8 | a definition with no contract of its own: mods.map(ansi).join(''); stated by SgrPrefixAppend, SgrPrefixLength and SgrPrefixRoundTrip |
| Colors.Color | utils/colors.js:8 | a definition with no contract of its own: the colourer of a modifier list; stated by ColorNoModifiers, ColorLayout, ColorCons and ColorDecodes |
| Colors.SgrPrefixAppend | utils/colors.js:8 | mods.map(ansi).join('') of a concatenation is the concatenation of the two joins: the sequences come in argument order |
| Colors.SgrPrefixRoundTrip | utils/colors.js:8 | the modifiers are decoded back, in order, from their joined sequences in front of any string |
| Colors.SgrPrefixLength | utils/colors.js:8 | the joined sequences are as long as 3 plus the digit count of each modifier, summed |
| Colors.ColorNoModifiers | utils/colors.js:8 | the reset sequence is ESC [ 0 m, so color()(txt) is txt followed by it |
| Colors.ColorLayout | utils/colors.js:8 | color(...mods)(txt) is the joined sequences, then txt, then the 4-character reset, and has exactly that length |
| Colors.ColorCons | utils/colors.js:8 | color(m, ...rest)(txt) is ansi(m) in front of color(...rest)(txt) |
| Colors.ColorDecodes | utils/colors.js:8 | the modifiers are recovered from any coloured string, and they are all that is recovered when the text does not start with ESC |
| Colors.ForegroundCodes | utils/colors.js:10-18 | BLACK .. WHITE are the consecutive codes 30 .. 37 and BRIGHT is 1 |
| Colors.AnsiTwoDigits | utils/colors.js:6 | the sequence of a two-digit code is ESC [ tens units m |
| Colors.SgrPrefixTwo | utils/colors.js:8 | two modifiers give their two sequences in order |
| Colors.SgrPrefixThree | utils/colors.js:8 | three modifiers give their three sequences in order |
| Colors.UsedSequences | utils/colors.js:10-18 | the exact sequences of the codes the colourers use: 1, 30, 37, 41, 42, 46 |
| Colors.ForegroundLayout | utils/colors.js:22-28 | red .. white put ESC [ 3 k m in front of the text, k being the colour's offset from black, and the reset after it |
| Colors.Red | utils/colors.js:22 | red(txt) is exactly ESC [ 3 1 m, then txt, then ESC [ 0 m |
| Colors.Green | utils/colors.js:23 | green(txt) is exactly ESC [ 3 2 m, then txt, then ESC [ 0 m |
| Colors.Yellow | utils/colors.js:24 | yellow(txt) is exactly ESC [ 3 3 m, then txt, then ESC [ 0 m |
| Colors.Blue | utils/colors.js:25 | blue(txt) is exactly ESC [ 3 4 m, then txt, then ESC [ 0 m |
| Colors.Magenta | utils/colors.js:26 | magenta(txt) is exactly ESC [ 3 5 m, then txt, then ESC [ 0 m |
| Colors.Cyan | utils/colors.js:27 | cyan(txt) is exactly ESC [ 3 6 m, then txt, then ESC [ 0 m |
| Colors.White | utils/colors.js:28 | white(txt) is exactly ESC [ 3 7 m, then txt, then ESC [ 0 m |
| Colors.Grey | utils/colors.js:29 | grey(txt) is bright then black: exactly ESC [ 1 m, ESC [ 3 0 m, txt, then the reset |
| Colors.Bright | utils/colors.js:31 | bright(txt) is exactly ESC [ 1 m, then txt, then the reset |
| Colors.BrightWhiteOn | utils/colors.js:32-36 | bright white on a two-digit background code is the three sequences 1, 37 and that code in front of the text |
| Colors.Plus | utils/colors.js:32 | plus(txt) is bright white on green: exactly ESC [ 1 m, ESC [ 3 7 m, ESC [ 4 2 m, txt, then the reset |
| Colors.Minus | utils/colors.js:33 | minus(txt) is bright white on red: exactly ESC [ 1 m, ESC [ 3 7 m, ESC [ 4 1 m, txt, then the reset |
| Colors.Invert | utils/colors.js:34 | invert(txt) is bright white on cyan: exactly ESC [ 1 m, ESC [ 3 7 m, ESC [ 4 6 m, txt, then the reset |
| Colors.Master | utils/colors.js:35 | master(txt) is bright white on cyan: exactly ESC [ 1 m, ESC [ 3 7 m, ESC [ 4 6 m, txt, then the reset |
| Colors.MasterIsInvert | utils/colors.js:34-35 | master and invert produce the same string for every text |
| Colors.Slave | utils/colors.js:36 | slave(txt) is bright white on magenta: exactly ESC [ 1 m, ESC [ 3 7 m, ESC [ 4 5 m, txt, then the reset |
| Reactive.Subscribe | sketches/runtime.ts:63-65 | Set.add keeps the set free of duplicates, keeps every member in place, contains the added watcher and adds nothing else |
| Reactive.SubscribeIdempotent | sketches/runtime.ts:63-65 | adding a watcher twice is adding it once |
| Reactive.SubscribeTop | sketches/runtime.ts:89-91 | a read subscribes the top of the stack when there is one: the set keeps every member and stays duplicate-free, gains the top, and gains nothing else |
| Reactive.OccursOnce | sketches/runtime.ts:56-57 | in a duplicate-free subscriber set every member occurs exactly once |
| Reactive.Dep.constructor | sketches/runtime.ts:59-61 | a new subscriber set is empty |
| Reactive.Dep.Depend | sketches/runtime.ts:63-65 | depend appends a new watcher at the end, leaves a present one where it is, and keeps the set duplicate-free |
| Reactive.Dep.Notify | sketches/runtime.ts:67-69 | notify calls the subscribers in insertion order, each exactly once, and calls nobody else |
| Reactive.WatcherStack.constructor | sketches/runtime.ts:107 | `activeWatchers` starts out empty |
| Reactive.WatcherStack.Top | sketches/runtime.ts:89-90 | the top is present exactly when the stack is non-empty, and it is the last pushed entry |
| Reactive.WatcherStack.Push | sketches/runtime.ts:129 | push puts the watcher on top and leaves the rest of the stack as it was |
| Reactive.WatcherStack.Pop | sketches/runtime.ts:131 | pop removes the top entry; popping an empty stack leaves it empty |
| Reactive.Channel.constructor | sketches/runtime.ts:77-84 | a channel holds its initial value; it has a subscriber set, initially empty, exactly when it is mutable |
| Reactive.Channel.Get | sketches/runtime.ts:86-93 | get returns the stored value; a mutable channel read while a watcher is on top of the stack gains exactly that watcher, and a read with an empty stack gains nobody |
| Reactive.Channel.Set | sketches/runtime.ts:95-103 | set on a constant channel is refused and changes nothing; an equal value is not stored and runs nobody; a different value is stored and every subscriber is handed back to run, each exactly once |
| Reactive.LastYieldSource | sketches/runtime.ts:121-123 | after running watchers in order, the output was last copied from the channel of the last yield watcher among them; there is none exactly when no watcher run is a yield watcher |
| Reactive.TrackedSource | sketches/runtime.ts:121-123 | when every yield callback among the watchers run copies one channel, the output is last copied from that channel as soon as one of them is a yield callback |
| Reactive.ReadByAnyStep | sketches/runtime.ts:68 | one more watcher run reads a channel exactly when an earlier one did or this one does |
| Reactive.SubscribeTopIdempotent | sketches/runtime.ts:89-91 | two reads under the same top of the stack subscribe as much as one |
| Reactive.CallbackStep | sketches/runtime.ts:68 | each further subscriber run keeps the rule "a channel gains the top of the stack exactly when a watcher run so far reads it" |
| Reactive.LastYieldStep | sketches/runtime.ts:68 | one more watcher run moves the output's source to its channel when it is a yield watcher, and keeps it otherwise |
| Reactive.ProcState.ChannelValid | sketches/runtime.ts:77-84 | every channel of the program has a subscriber set exactly when it is mutable, and that set is duplicate-free |
| Reactive.ProcState.SubscribersOf | sketches/runtime.ts:119-125 | every yield callback subscribed to a channel of the program copies that very channel, since its effect reads nothing else |
| Reactive.ProcState.constructor | sketches/runtime.ts:107-112 | a program context is built with no watcher evaluating (`$run` is called from the top level) and starts with output 0, no names and no callbacks |
| Reactive.ProcState.Local | sketches/runtime.ts:134-136 | local binds the name to a fresh mutable channel holding the value, with no subscribers; every other binding and the output stay as they were |
| Reactive.ProcState.ReadOne | sketches/runtime.ts:86-93 | reading one of the program's channels returns its value and changes the subscribers of that channel only |
| Reactive.ProcState.ReadAll | sketches/runtime.ts:86-93 | reading a list of channels subscribes the top of the stack to exactly those channels, each once |
| Reactive.ProcState.RunEffect | sketches/runtime.ts:121-123 | the effect yield installs copies its channel into the output; any effect subscribes the top of the stack to exactly the channels it reads |
| Reactive.ProcState.Register | sketches/runtime.ts:128 | a new callback gets a watcher identity that differs from every callback handed out before, and so from every watcher on the stack and in any subscriber set (the program invariant keeps those registered); it is recorded |
| Reactive.ProcState.RunWatched | sketches/runtime.ts:129-131 | running an effect under its own watcher subscribes that watcher to exactly the channels the effect reads, and the stack ends as it began |
| Reactive.ProcState.Watch | sketches/runtime.ts:128-132 | watch runs the effect at once, subscribing its new watcher to exactly the channels it reads, with the stack restored afterwards |
| Reactive.ProcState.Rewatch | sketches/runtime.ts:128-132 | watching an already registered callback again runs it under the same watcher: it subscribes that watcher to the channels it reads, without adding it a second time to a set it is already in, and restores the stack |
| Reactive.ProcState.ChannelOf | sketches/runtime.ts:115-117 | a raw value becomes a fresh constant channel holding it; a channel is used as it is |
| Reactive.ProcState.YieldChannel | sketches/runtime.ts:119-125 | yield on a channel makes the output equal to it, returns its value, installs one yield watcher and subscribes it, plus the outer top of the stack (for the two reads outside watch), to that channel only |
| Reactive.ProcState.Yield | sketches/runtime.ts:114-126 | yield makes the output equal to the yielded channel, or to a fresh constant channel holding the raw value; it returns that value and installs exactly one new watcher, which becomes a subscriber of a yielded mutable channel |
| Reactive.ProcState.RunCallback | sketches/runtime.ts:68 | a subscriber is called without pushing it: its reads subscribe whatever is on top of the stack (when that is no yield callback), and a yield watcher copies its channel into the output |
| Reactive.ProcState.RunCallbacks | sketches/runtime.ts:68 | running the handed-back watchers in order leaves the output equal to the channel of the last yield watcher among them (unchanged if none), and subscribes the top of the stack to exactly the channels some of them read; with an empty stack no subscriber set changes |
| Reactive.ProcState.Write | sketches/runtime.ts:95-103 | writing a different value to a program channel stores it and runs its subscribers in order; when one of them is a yield callback, the output shows the written value; an equal value changes neither the output nor any subscriber set |
| Reactive.ProcState.Ref | sketches/runtime.ts:138-147 | ref of an undeclared name is an error; otherwise it returns the bound channel, and a given value is written to it with the effects of a write: only that channel's value changes, the subscribers run when the value differs, and a yield tracking the channel then shows the value |
| Reactive.DeclareA | sketches/runtime.ts:170-172 | a new context after local a = 1 and ref a binds only a, to a mutable channel holding 1 with no subscribers |
| Reactive.StartYielding | sketches/runtime.ts:170-172 | after local a = 1 and yield of ref a, the output is 1 and the yield's watcher is a's only subscriber |
| Reactive.YieldTracking | sketches/runtime.ts:170-175 | the example program shows 1, and 2 once the timer's body has written 2 to a |
| Reactive.YieldThenWrite | sketches/runtime.ts:114-147 | in any program context, with no watcher evaluating, yielding a declared channel and then writing a value to it through ref makes the output that value |
| Reactive.ConstantYield | sketches/runtime.ts:114-117 | yielding a raw value shows that value, and every write to its constant channel is refused |
| Reactive.StartWatching | sketches/runtime.ts:128-136 | a watch whose effect reads a new local makes its watcher that channel's only subscriber |
| Reactive.DependencyCapture | sketches/runtime.ts:63-69 | a watcher that read a channel is handed back by a later changing write, and by the next one too: re-running it does not add it a second time |
| Reactive.WatchTwice | sketches/runtime.ts:63-69 | a callback watched twice is still a single subscriber of the channel it reads: a changing write runs it exactly once |

## Left out

- **Not modelled:**
  - the `Runtime` class (the animation-frame tick loop, the key handler that stops it, rendering the output into the page);
  - `$run`'s wiring of the program body to the runtime;
  - the timers behind `after` and `every` (`setTimeout`, `setInterval`).

  These are host I/O and scheduling. From `after` and `every`, only the duration parser they call is modelled. In `YieldTracking`, the timer's body is a later call.
- **Console logging** (`log`, `console.log`): no effect on state, left out. The channel read inside `yield`'s log line is modelled, because it subscribes.
- **Effect bodies:** arbitrary closures are described by `Effect` values. An effect that writes channels, and the re-entrant notification cascades that would cause, is not modelled. Neither is an exception in a subscriber that aborts the remaining ones.
- Reactive.ProcState.Write: writes are made with no watcher evaluating, as the program body and the timers' bodies make them. A write from inside an effect is not modelled, because effects do not write. With an empty stack the subscriber set cannot grow while `Set.forEach` runs it.
- Reactive.ProcState.RunCallbacks: the subscribers are run from the set as it stood at the write. With a watcher on top of the stack, `Set.forEach` would also visit a watcher a re-run adds to that set; writes are only modelled with an empty stack, where no watcher is added. A yield callback on top of the stack is excluded, as it never writes.
- Reactive.ProcState.Ref: like `Write`, it is called with no watcher evaluating.
- Reactive.ProcState.Yield: yield of a channel is not modelled while a yield callback of another channel is on top of the stack. That callback only copies its channel and never calls `yield`, so this cannot happen in the code.
- Reactive.ProcState.Ref: a name that is neither declared nor inherited from `Object.prototype` gives the error `UnknownReference`. In the code it returns `undefined` when no value is given, and fails with a TypeError from `set` on `undefined` when one is given.
- Reactive.ProcState.Ref: the name table is a plain JavaScript object (`sketches/runtime.ts:112`), and the model treats it as a map of own entries. Names it inherits from `Object.prototype` are not modelled: `ref('toString')` returns that function, and `ref('constructor', 1)` fails because `set` is not a function. Neither is `__proto__`: `local('__proto__', v)` makes the channel the table's prototype instead of adding an entry, after which names such as `value` and `get` resolve to the channel's own members.
- Reactive.ProcState.Watch: each call stands for a new callback and mints a new watcher. Passing the same callback to `watch` again is modelled separately, by `Reactive.ProcState.Rewatch`, which reuses the watcher it was given.
- Reactive.ProcState.Yield: the `instanceof Channel` test is replaced by the `YieldArg` datatype, which says whether the argument is a raw value or a channel.
- **Numbers:** channel values and the output are mathematical integers, and equality of values is integer equality. JavaScript numbers (floating point, `NaN`, `-0`, precision above 2^53) are not modelled.
- Durations.ParseInt: integers are exact, and `parseInt`'s results above 2^53 are not rounded to a double. `-0` is not distinguished from `0`.
- Numerals.ToDecimal: integers of 10^21 and more, which JavaScript prints in exponent form, are printed as plain digits.
- **Modifiers:** `color`'s modifiers are natural numbers. Strings or negative numbers passed to it are not modelled.
- **The rest of the repository** (the other utilities, the diff helpers, the language notes after the example program) is not part of this model.
