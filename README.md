# loggerect website: highlighter, console demo and docs router

A Dafny model of the three pieces of original logic in the loggerect
marketing and documentation site. Everything else in the site is markup or
calls into the external `loggerect` package.

- **Examples** (`src/components/Examples.tsx`). The code-sample syntax
  highlighter and the console-line formatter.
  - `tokenizeLine` is a character loop whose state is an accumulation buffer,
    an in-string flag and the opening quote. It splits a line into keyword,
    decorator, string, tag and plain tokens.
  - `highlightSyntax` cuts a trailing `//` comment off first.
  - `formatLogLine` splits a canned console line into a badge and the rest,
    and picks the badge class.
  - Tokens are `(kind, text)` pairs instead of styled spans.
  - The loop is the method `TokenizeLine`. It is proved equal to the
    functional scanner `Scan`/`Tokenize`, which replays the loop one step at
    a time. The properties of the tokenizer are lemmas about `Tokenize`.
- **ConsoleDemo** (`src/components/ConsoleDemo.tsx`). The animated console:
  - a buffer of at most 8 log lines;
  - a cyclic index into 7 canned entries;
  - a pause flag set by hover.
  - The component is the class `Console` with `Tick`, `Hover` and `Unhover`.
  - A ghost history of every appended line lets the class invariant state
    two things: the buffer is always the last 8 lines of the initial lines
    plus that history, and tick k appended canned entry k mod 7.
- **DocsContent** (`src/components/docs/DocsContent.tsx`). The documentation
  browser:
  - the registry of 9 sections;
  - validation of the `section` URL parameter, with `getting-started` as the
    fallback;
  - the active section and the mobile sidebar flag (the class `DocsPage`);
  - the one-of-nine content dispatch.
  - A subset type of `string` plays the role of the `Section` union type.
    The source's `as Section` cast is unchecked and relies on the `.some`
    test before it; in the model the cast after validation is a proof
    obligation.
- **Strings** and **Optional** are helper modules. `Strings` holds
  JavaScript's `indexOf`, `includes`, `startsWith`, `split` and `join` on
  `seq<char>`. `Optional` holds `null`-or-value.
  - JavaScript indexes strings by UTF-16 code unit, and a Dafny `char` is a
    code point. No modelled behaviour depends on an index's numeric value:
    indices are only used to slice, and none of the special characters is a
    surrogate.

Inputs the source takes from the browser are parameters:

- `Tick(now, clock)` receives `Date.now()` and the `toLocaleTimeString()`
  reading.
- `DocsPage.Navigate(param)` receives the current `section` search
  parameter.

React's re-render-then-effect sequence is modelled as one method per event.
Each method first makes the state change. It then runs the effects whose
dependencies changed: the URL sync effect depends on `sectionParam`, and the
close-sidebar effect depends on `activeSection`. Setting a state to its
current value does not re-run an effect.

Behaviour of the code worth noting:

- A `>` flushes whatever the buffer holds, tag or not. So `div>` is a plain
  token, and only a buffer that began with `<` is a tag.
- The `char === "/" && line[i-1] === "<"` branch appends the character, as
  the default branch does. It is modelled literally and has no effect of its
  own.
- The `startsWith("</")` test is subsumed by `startsWith("<")`.
- A sidebar click only sets the local active section. Nothing in
  `DocsContent.tsx` writes the URL.

## Model

| member | source | states |
|---|---|---|
| `Examples.Classify` | src/components/Examples.tsx:342-364 | a flushed buffer is a keyword exactly when it is one of the 19 words; otherwise its first character decides (`@` decorator, a quote string, `<` tag, else plain); never a comment |
| `Examples.PushCurrent` | src/components/Examples.tsx:352-367 | specified by `PushCurrentFacts` and `PushWellFormed`: a flush keeps the spelled text, empties the buffer, only appends, and keeps every token well formed |
| `Examples.Flush` | src/components/Examples.tsx:352-367 | the `pushCurrent` closure on the loop's variables leaves exactly the state `PushCurrent` gives |
| `Examples.Step` | src/components/Examples.tsx:373-399 | one loop iteration; specified by `StepSpells` (the spelled text gains the character and tokens only grow) and `StepWellFormed` (tokens stay well formed) |
| `Examples.Scan` | src/components/Examples.tsx:372-400 | the loop state after n characters; specified by `ScanFacts` and `ScanExtends` |
| `Examples.Next` | src/components/Examples.tsx:373-399 | the loop state after reading one more character; specified through `Scan` by `ScanFacts` |
| `Examples.Tokenize` | src/components/Examples.tsx:341-404 | what `tokenizeLine` returns; specified by `TokenizeRoundTrip`, the token-boundary lemmas and `WordIsOneToken` (no split inside a word) |
| `Examples.TokenizeLine` | src/components/Examples.tsx:341-404 | the loop yields the scanner's tokens; they spell the line exactly, each is non-empty and carries its classified kind |
| `Examples.ScanFacts` | src/components/Examples.tsx:372-400 | after n characters the emitted tokens followed by the buffer spell the first n characters, and every emitted token is non-empty and classified |
| `Examples.ScanExtends` | src/components/Examples.tsx:372-400 | tokens are only ever appended: the tokens after m characters begin the tokens after any later n |
| `Examples.TokenizeRoundTrip` | src/components/Examples.tsx:372-402 | concatenating the token texts gives back the line, and every token is non-empty and classified |
| `Examples.DelimiterIsOwnToken` | src/components/Examples.tsx:386-388 | outside a string, each of ` ( ) { } ; , :` is emitted as its own one-character plain token after everything before it has been flushed |
| `Examples.StringTokenClosed` | src/components/Examples.tsx:375-385 | a quote outside a string starts a string token after a flush; the token runs through the next occurrence of the same quote, with delimiters inside it not split |
| `Examples.StringTokenUnterminated` | src/components/Examples.tsx:375-402 | an unterminated string runs to the end of the line and is the last token, flushed by the final `pushCurrent` |
| `Examples.OpenTagStartsToken` | src/components/Examples.tsx:389-393 | outside a string, `<` flushes the buffer and starts a new token, which begins with `<` and is a tag |
| `Examples.CloseTagEndsToken` | src/components/Examples.tsx:394-396 | outside a string, `>` is appended to the pending buffer and the buffer plus `>` is flushed as one classified token right after the tokens emitted before it; a token boundary falls right after `>` |
| `Examples.OrdinaryRun` | src/components/Examples.tsx:389-399 | outside a string and from an empty buffer, a run of characters other than quotes, delimiters, `<` and `>` emits nothing and leaves exactly the run in the buffer |
| `Examples.WordStart` | src/components/Examples.tsx:386-388 | at the start of a line, or just past a delimiter read outside a string, the buffer is empty, the scanner is outside a string and the emitted tokens spell the text so far |
| `Examples.WordIsOneToken` | src/components/Examples.tsx:351-402 | a word of such characters between two flush points (line start or delimiter before it, delimiter or line end after it) is emitted as exactly one token classified as a whole, right after the tokens that spell the text before it |
| `Examples.KeywordWord` | src/components/Examples.tsx:341-354 | a keyword between two flush points comes out as one keyword token |
| `Examples.DecoratorWord` | src/components/Examples.tsx:355-356 | an `@` word of ordinary characters between two flush points comes out as one decorator token |
| `Examples.ClosingQuote` | src/components/Examples.tsx:375-380 | the index of the next occurrence of the opening quote, or -1 when none follows |
| `Examples.Highlight` | src/components/Examples.tsx:321-339 | the highlighted tokens spell the line exactly |
| `Examples.HighlightWithoutComment` | src/components/Examples.tsx:325-338 | a line without `//` is highlighted exactly as `tokenizeLine` tokenizes it, with no comment token |
| `Examples.HighlightWithComment` | src/components/Examples.tsx:325-335 | a line with `//` ends in one comment token whose text is exactly the line from the first `//` on, even inside a string literal; the earlier tokens tokenize the text before it, which holds no `//` |
| `Examples.HighlightCode` | src/components/Examples.tsx:266-268 | a code blob is split at newlines and each line is highlighted; each highlighted line spells its piece and holds no newline |
| `Examples.HighlightCodeRoundTrip` | src/components/Examples.tsx:266-268 | the highlighted lines joined with newlines give back the code blob |
| `Examples.BadgeClassOf` | src/components/Examples.tsx:416-419 | the badge class is error if the badge contains ERROR, else warn if WARN, else info if INFO, else debug |
| `Examples.FormatLogLine` | src/components/Examples.tsx:406-431 | three leading spaces: the line whole as a continuation; else, when the separator (space, bar, space) occurs, badge + separator + rest == line with the badge ending at the first separator, and the badge class chosen from the badge; else the line unchanged |
| `Strings.Contains` | src/components/Examples.tsx:417-419 | `includes`; it is exactly the test `IndexOf` answers with -1 |
| `Strings.StartsWith` | src/components/Examples.tsx:356-360 | `startsWith`; used by `Classify` and `FormatLogLine`, whose contracts state the outcomes |
| `Strings.Join` | src/components/Examples.tsx:414 | `join`; specified by `JoinSplit` and `SplitFirst` |
| `Strings.SplitPieces` | src/components/Examples.tsx:266 | no piece of a split holds the separator, so a code blob is cut at every newline |
| `Strings.IndexOf` | src/components/Examples.tsx:325 | -1 exactly when the pattern does not occur; otherwise the pattern occurs there and at no earlier index |
| `Strings.Split` | src/components/Examples.tsx:411-412 | at least one piece; exactly one piece when the separator does not occur |
| `Strings.JoinSplit` | src/components/Examples.tsx:411-414 | joining the pieces of a split with the same separator gives back the string |
| `Strings.NoneBeforeFirst` | src/components/Examples.tsx:325-328 | the text before the first occurrence of a non-empty pattern holds no occurrence of it |
| `Strings.SplitFirst` | src/components/Examples.tsx:411-414 | the first piece is the text before the first separator, and the other pieces joined are the text after it |
| `ConsoleDemo.InitialLogs` | src/components/ConsoleDemo.tsx:17-78 | the seven initial lines; specified by `CannedTables` |
| `ConsoleDemo.AdditionalLogs` | src/components/ConsoleDemo.tsx:80-127 | the seven canned entries; specified by `CannedTables` |
| `ConsoleDemo.CannedTables` | src/components/ConsoleDemo.tsx:17-127 | seven initial lines with ids 1 to 7 and seven canned entries; a line has a time label exactly when it has a badge text, and every badge has a badge class |
| `ConsoleDemo.CannedAt` | src/components/ConsoleDemo.tsx:149 | the entry a tick appends is one of the canned entries |
| `ConsoleDemo.Stamp` | src/components/ConsoleDemo.tsx:149-154 | the appended line carries the canned entry's content with the fresh id; its time is non-empty exactly when the entry's badge text is |
| `ConsoleDemo.Push` | src/components/ConsoleDemo.tsx:161-166 | the result holds the smaller of 8 and one more than prev's length lines and ends with the new line; it is a suffix of prev ++ [new], so only the oldest lines are evicted and the survivors keep their order |
| `ConsoleDemo.Window` | src/components/ConsoleDemo.tsx:161-166 | the last lines of a history, as many as the smaller of 8 and its length |
| `ConsoleDemo.PushWindow` | src/components/ConsoleDemo.tsx:161-166 | pushing a line onto the last 8 lines of a history gives the last 8 lines of the extended history |
| `ConsoleDemo.ExtendHistory` | src/components/ConsoleDemo.tsx:161-166 | the class invariant's buffer equation survives one more appended line |
| `ConsoleDemo.PushEvictsOldest` | src/components/ConsoleDemo.tsx:162-164 | on a full buffer a push drops exactly the oldest line |
| `ConsoleDemo.CarriesExtend` | src/components/ConsoleDemo.tsx:149-169 | if tick k appended canned entry k mod 7 for every earlier tick, this holds after the next one too |
| `ConsoleDemo.GetBadgeClass` | src/components/ConsoleDemo.tsx:191-204 | `info`, `debug`, `warn` and `error` map to `log-badge-` followed by the name; any other string maps to no class |
| `ConsoleDemo.Console.constructor` | src/components/ConsoleDemo.tsx:138-144 | starts with the 7 initial lines, index 0, not paused |
| `ConsoleDemo.Console.Tick` | src/components/ConsoleDemo.tsx:146-170 | paused: nothing changes; otherwise the stamped canned entry at index mod 7 is pushed, the index grows by one, and the buffer stays at most 8 lines and equal to the last lines of the whole history |
| `ConsoleDemo.Console.Hover` | src/components/ConsoleDemo.tsx:181-184 | sets the pause flag; nothing else changes |
| `ConsoleDemo.Console.Unhover` | src/components/ConsoleDemo.tsx:186-189 | clears the pause flag; nothing else changes |
| `DocsContent.Registry` | src/components/docs/DocsContent.tsx:29-39 | the nine sections in sidebar order; specified by `RegistryShape` |
| `DocsContent.SomeHasId` | src/components/docs/DocsContent.tsx:45 | true exactly when some registry entry has the given id |
| `DocsContent.RegistryShape` | src/components/docs/DocsContent.tsx:18-39 | the registry holds 9 pairwise distinct ids, exactly the members of the `Section` type |
| `DocsContent.RegistryIndex` | src/components/docs/DocsContent.tsx:29-39 | every section has a registry entry |
| `DocsContent.Resolve` | src/components/docs/DocsContent.tsx:43-47 | non-null exactly when the parameter is present and a registered id, and then it is that id; unknown values give null |
| `DocsContent.InitialSection` | src/components/docs/DocsContent.tsx:48-50 | the parameter when it is a registered id, else `getting-started` |
| `DocsContent.Resync` | src/components/docs/DocsContent.tsx:54-59 | a valid URL section becomes the active one; a null one leaves it unchanged |
| `DocsContent.Rendered` | src/components/docs/DocsContent.tsx:182-190 | exactly one content unit is rendered |
| `DocsContent.RenderedPage` | src/components/docs/DocsContent.tsx:182-190 | the k-th registered section renders exactly the k-th page |
| `DocsContent.RenderedDistinct` | src/components/docs/DocsContent.tsx:182-190 | each section renders its own page, and different sections render different pages |
| `DocsContent.DocsPage.constructor` | src/components/docs/DocsContent.tsx:48-51 | the initial section comes from the URL, and the sidebar starts closed |
| `DocsContent.DocsPage.CloseIfChanged` | src/components/docs/DocsContent.tsx:62-64 | the sidebar closes when the active section changed, and is untouched otherwise |
| `DocsContent.DocsPage.Navigate` | src/components/docs/DocsContent.tsx:53-64 | an unchanged parameter changes nothing; a changed one resyncs the active section; any section change closes the sidebar |
| `DocsContent.DocsPage.SelectSection` | src/components/docs/DocsContent.tsx:160-163 | a sidebar click makes that entry active; a real change closes the sidebar |
| `DocsContent.DocsPage.ToggleSidebar` | src/components/docs/DocsContent.tsx:74 | the menu button negates the sidebar flag |
| `DocsContent.DocsPage.CloseSidebar` | src/components/docs/DocsContent.tsx:144-148 | an overlay click closes the sidebar |

## Left out

- JSX rendering, CSS class strings other than the badge classes, animation delays and SVG markup. They are presentation only; the model keeps only the token and class decisions.
- Clipboard writes and the "Copied!" timeouts in `Examples.tsx`. They are asynchronous browser I/O.
- The `setInterval` scheduling and its cleanup in `ConsoleDemo.tsx`. The model replaces the timer with explicit `Tick` calls.
- `Date.now()` and `toLocaleTimeString()`. They are nondeterministic, so they are `Tick` parameters.
- The calls into the external logging library: `useLogger`, `useLifecycleLogger`, `useTimer().measure`, `log.info`, `log.trace`, `log.debug` and `configure`. They have no effect on the modelled state. `useStateLogger` is modelled as plain state.
- The tab switcher of `Examples.tsx` (`handleTabChange`) and its static `codeExamples`, `consoleOutputs` and `presets` tables. These are static text and a one-line setter.
- The documentation pages under `src/components/docs/` other than `DocsContent.tsx`. They describe the external package in static text and implement nothing.
- `src/app/docs/page.tsx`, an older seven-section copy of the docs page without URL validation. `DocsContent.tsx` supersedes it.
- The presentational components and configuration: `Hero.tsx`, `Features.tsx`, `Comparison.tsx`, `CTA.tsx`, `Footer.tsx`, `layout.tsx`, `page.tsx` and `next.config.ts`.
- React's batching and the render between a state change and its effect. Each event is one atomic method.
- `InString` reads the scanner's own flag. The string lemmas say "outside a string literal" in terms of the scanner state, not of the raw text.
