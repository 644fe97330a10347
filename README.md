# Online Judge — a verified model of the C runner and the front-end's routing and form logic

This project is a Dafny model of four parts of the Online Judge application.

- **The C runner** (`executeC`). It turns a source path into a binary name: the base name up to its first dot, plus `.exe` on Windows or `.out` elsewhere. It compiles the source with gcc into the shared output directory. If compilation succeeds, it spawns the binary once in that directory, writes the input to its stdin and closes stdin. It collects stdout and stderr chunk by chunk. The first `close` or `error` event settles the promise: exit code 0 resolves with both buffers; any other code, `null` included, rejects with `Process exited with code <code>`; a spawn error rejects with that error. Every rejection carries the stderr collected so far.
- **The sign-up form.** Each change to the password field recomputes five criteria: at least 8 characters, a capital letter, a small letter, a digit, and one of `!@#$%^&*(),.?":{}|<>`. The password must equal a non-empty confirmation. The submit handler reports a weak password first and a mismatch second, and only then hands the payload to the network call. The submit button is disabled under the same conditions.
- **The root layout.** The navbar and the footer are hidden on eight exception routes, compared as whole strings, and on single problem pages (`/^\/problems\/[^/]+$/`).
- **The navbar.**
  - It highlights navigation links. The profile link is active on any path that starts with `/profile`; the other links are active on their own route and on routes below it.
  - It shows avatar initials and a display name, each with a fallback.
  - It drives two account menus (desktop and mobile) through one `openDropdown` state. At most one menu is open at a time. Every menu item's own click handler except the mobile theme item's closes the menu. The theme item also toggles on Enter or Space, whether or not a theme transition runs.

The model has one module per source file, plus two support modules.

- `Wrappers` holds `Option`.
- `Strings` holds the JavaScript string operations the code relies on: `startsWith`, a one-character `split` (with `Join` as its reference inverse), ASCII `toUpperCase`, and the decimal rendering of integers.

The model takes the source's own form:

- Pure expressions are functions with lemmas.
- The runner's callback loop is a method (`ExecuteC.Run`) with loop invariants. It is tied to the specification function `SettleOf`.
- The React component state of the sign-up form and of the navbar is modelled as classes. Their handlers are methods whose new state is stated in terms of pure functions, and the lemmas are about those functions.

gcc, the child process and the platform are inputs to the model:

- the compile outcome is a `CompileResult`;
- the child process is the sequence of events its callbacks receive;
- `process.platform === "win32"` is the flag `isWindows`;
- `outputPath` is the parameter `outputDir`.

`executeC`'s `input` defaults to `""`: a call without it is `ExecuteC.Execute` with `input` set to `""`.

The runner's effects on the world come back as a list of `Action`s. The navbar's navigation, logout and theme toggling come back as `Effect`s.

`compiler/runners/execute-c.js` has no timeout, no output cap and no verdicts. The model shows (`ExecuteC.PendingIff`) that without a `close` or `error` event the promise never settles.

## Model

| member | source | states |
|---|---|---|
| `Strings.Split` | compiler/runners/execute-c.js:12 | `split(sep)` yields at least one piece, and no piece contains the separator; the first piece is a prefix of the input that ends at its end or at a separator |
| `Strings.StartsWith` | frontend/src/components/layout/navbar-v2.jsx:47-51 | `startsWith`; its uses are stated by `Navbar.ActiveLinkIff` and `RootLayout.TestProblemRoute` |
| `Strings.Join` | compiler/runners/execute-c.js:12 | reference inverse of `split(sep)` (also used at frontend/src/components/layout/navbar-v2.jsx:217); it pins `Split` down through `Strings.JoinSplit` and `Strings.SplitJoin`. The source's own `join("")` is `Navbar.FirstChars` |
| `Strings.JoinSplit` | frontend/src/components/layout/navbar-v2.jsx:217-219 | joining the pieces of a split restores the string |
| `Strings.SplitOfPrefix` | compiler/runners/execute-c.js:12 | a separator-free prefix is glued onto the first piece and leaves the other pieces alone |
| `Strings.SplitJoin` | frontend/src/components/layout/navbar-v2.jsx:217-219 | splitting a join of separator-free pieces gives back the pieces |
| `Strings.ToUpper` | frontend/src/components/layout/navbar-v2.jsx:220 | `toUpperCase` keeps the length, maps each character to its capital, and leaves no small ASCII letter |
| `Strings.UpperChar` | frontend/src/components/layout/navbar-v2.jsx:220 | one character of `toUpperCase`; stated by `Strings.ToUpper` and `Navbar.ToUpperIsU` |
| `Strings.ToUpperIdempotent` | frontend/src/components/layout/navbar-v2.jsx:220 | upper-casing twice equals upper-casing once |
| `Strings.NatToString` | compiler/runners/execute-c.js:46 | the decimal numeral is non-empty, all digits, and has no leading zero |
| `Strings.NatToStringRoundTrip` | compiler/runners/execute-c.js:46 | reading the rendered numeral gives the number back |
| `Strings.NatToStringInjective` | compiler/runners/execute-c.js:46 | distinct naturals render to distinct numerals |
| `Strings.IntToString` | compiler/runners/execute-c.js:46 | an integer renders as digits, with `-` first exactly when it is negative |
| `Strings.IntToStringInjective` | compiler/runners/execute-c.js:46 | distinct exit codes render differently |
| `ExecuteC.LastSegment` | compiler/runners/execute-c.js:12 | the text after the last separator contains no separator |
| `ExecuteC.IsSeparator` | compiler/runners/execute-c.js:12 | the separators Node's `path` accepts: `/`, and `\` on Windows |
| `ExecuteC.DropDrive` | compiler/runners/execute-c.js:12 | Windows `basename` skips a leading drive; stated by `ExecuteC.BasenameSkipsDrive` |
| `ExecuteC.StripTrailingSeparators` | compiler/runners/execute-c.js:12 | `basename` ignores trailing separators; stated by `ExecuteC.BasenameIgnoresTrailingSeparator` |
| `ExecuteC.Basename` | compiler/runners/execute-c.js:12 | `path.basename` contains no separator (`/`, and on Windows also `\`) |
| `ExecuteC.OutputId` | compiler/runners/execute-c.js:12 | `outputId` is the base name up to, not including, its first `.`: a dot-free prefix of the base name that is all of it or is followed by `.` |
| `ExecuteC.OutputExtension` | compiler/runners/execute-c.js:14 | `.exe` on Windows, `.out` elsewhere; stated by `ExecuteC.OutputFilenameOfChild` |
| `ExecuteC.OutputFilename` | compiler/runners/execute-c.js:13-15 | the binary's file name is non-empty and has no separator |
| `ExecuteC.PathSeparator` | compiler/runners/execute-c.js:16 | `path.join` inserts a separator of the platform |
| `ExecuteC.OutPath` | compiler/runners/execute-c.js:16 | `outPath`; stated by `ExecuteC.OutPathInOutputDir` |
| `ExecuteC.CompileCommand` | compiler/runners/execute-c.js:19-21 | the gcc command; stated by `ExecuteC.CompileCommandQuoting` |
| `ExecuteC.RunCommand` | compiler/runners/execute-c.js:29-31 | the spawned command; stated by `ExecuteC.RunCommandNamesOutput` |
| `ExecuteC.RunCommandNamesOutput` | compiler/runners/execute-c.js:16-33 | the command is spawned with the output directory as its working directory; it is `./` and the base name of `outPath` on POSIX, the bare base name on Windows; and `outPath` is that directory, one separator and that base name, so the spawn runs the file gcc wrote (for a file name that does not begin like a drive) |
| `ExecuteC.LastSegmentOfChild` | compiler/runners/execute-c.js:12 | the last segment of `dir/name` is `name` |
| `ExecuteC.BasenameOfChild` | compiler/runners/execute-c.js:12 | `path.basename(dir + sep + name)` is `name`, on both platforms, with or without a drive letter |
| `ExecuteC.BasenameIgnoresTrailingSeparator` | compiler/runners/execute-c.js:12 | a trailing separator does not change `path.basename` |
| `ExecuteC.BasenameSkipsDrive` | compiler/runners/execute-c.js:12 | on Windows, `path.basename` of a drive letter, `:` and a separator-free name is that name |
| `ExecuteC.OutPathInOutputDir` | compiler/runners/execute-c.js:12-16 | `outPath` is the output directory, one separator, and a separator-free rest, so it lies directly in that directory; its base name is `outputFilename`, whatever directories the source path names |
| `ExecuteC.LastSegmentWhole` | compiler/runners/execute-c.js:12 | a separator-free name is its own last segment |
| `ExecuteC.OutputIdOfPlainName` | compiler/runners/execute-c.js:12 | the id of a bare `stem.rest` is the stem before the first dot |
| `ExecuteC.OutputIdFirstDot` | compiler/runners/execute-c.js:12 | `a.b.c` has the id `a` |
| `ExecuteC.OutputIdOfChild` | compiler/runners/execute-c.js:12 | a file `stem.ext` in any directory has the id `stem` |
| `ExecuteC.OutputFilenameOfChild` | compiler/runners/execute-c.js:12-15 | a file `stem.ext` in any directory compiles to `stem.out`, or `stem.exe` on Windows |
| `ExecuteC.QuotedArgs` | compiler/runners/execute-c.js:19-21 | the shell's double-quoted words contain no double quote |
| `ExecuteC.QuotedArgsSkip` | compiler/runners/execute-c.js:19-21 | unquoted text before a word adds no quoted word |
| `ExecuteC.QuotedArgsWord` | compiler/runners/execute-c.js:19-21 | a quote-free word between quotes is read back as one word |
| `ExecuteC.CompileCommandQuoting` | compiler/runners/execute-c.js:19-21 | the compile command's quoted words are exactly the source path and the output path if and only if neither contains a double quote |
| `ExecuteC.ExitMessageInjective` | compiler/runners/execute-c.js:44-46 | different exit codes, `null` included, give different rejection messages |
| `ExecuteC.ExitMessage` | compiler/runners/execute-c.js:46 | the exit rejection message; stated by `ExecuteC.ExitMessageInjective` and `ExecuteC.SettledByFirst` |
| `ExecuteC.Chunk` | compiler/runners/execute-c.js:38-43 | what one event adds to a buffer; stated by `ExecuteC.StreamsDoNotMix` |
| `ExecuteC.Collected` | compiler/runners/execute-c.js:34-43 | the `stdout`/`stderr` buffers; stated by `ExecuteC.CollectedAppend`, `ExecuteC.StreamsDoNotMix` and the invariants of `ExecuteC.Run` |
| `ExecuteC.CollectedAppend` | compiler/runners/execute-c.js:38-43 | the buffers of a concatenated event sequence are the concatenated buffers |
| `ExecuteC.StreamsDoNotMix` | compiler/runners/execute-c.js:38-43 | a chunk is appended whole to its own stream's buffer and leaves the other buffer unchanged |
| `ExecuteC.SettleBy` | compiler/runners/execute-c.js:44-53 | an event settles the promise exactly when it is `close` or `error` |
| `ExecuteC.Settles` | compiler/runners/execute-c.js:44-53 | the events with a settling handler; stated by `ExecuteC.SettleBy` |
| `ExecuteC.SettleOf` | compiler/runners/execute-c.js:44-53 | the promise after a sequence of events; stated by `ExecuteC.FirstSettlementWins`, `ExecuteC.PendingIff`, `ExecuteC.SettledByFirst` and `ExecuteC.Run` |
| `ExecuteC.FirstSettlementWins` | compiler/runners/execute-c.js:44-53 | once the promise has settled, later events never change the result |
| `ExecuteC.PendingWithoutSettlingEvent` | compiler/runners/execute-c.js:44-53 | without `close` or `error` the promise stays pending |
| `ExecuteC.SettlingEventSettles` | compiler/runners/execute-c.js:44-53 | any `close` or `error` event settles the promise |
| `ExecuteC.PendingIff` | compiler/runners/execute-c.js:44-53 | the promise is pending if and only if no `close` or `error` event occurred |
| `ExecuteC.SettleOfUpTo` | compiler/runners/execute-c.js:44-53 | up to the first `close`/`error`, the promise settles by that event, using the buffers collected before it |
| `ExecuteC.SettledByFirstEvent` | compiler/runners/execute-c.js:44-53 | the first settling event fixes the result for all later events |
| `ExecuteC.SettledByFirst` | compiler/runners/execute-c.js:34-53 | the first `close`/`error` decides: code 0 resolves with both buffers as they stood then; another code rejects with the exit message and stderr; `error` rejects with the error and stderr |
| `ExecuteC.Actions` | compiler/runners/execute-c.js:19-37 | the compile command always runs first; a failed compile does nothing more; a successful one spawns the run command in the output directory, writes the whole input and ends stdin |
| `ExecuteC.CommandsFor` | compiler/runners/execute-c.js:19-32 | the commands and working directory of one call; stated by `ExecuteC.Execute` |
| `ExecuteC.SpawnOnlyAfterCompile` | compiler/runners/execute-c.js:23-33 | a failed compile spawns no process and a successful one spawns exactly one |
| `ExecuteC.Run` | compiler/runners/execute-c.js:29-53 | the run phase spawns, writes the input, ends stdin, and settles exactly as `SettleOf` says for the event sequence |
| `ExecuteC.Execute` | compiler/runners/execute-c.js:11-55 | `executeC` performs `Actions` for its commands; a failed compile rejects with gcc's error and stderr; otherwise the promise settles as the child's events dictate |
| `SignUp.Test` | frontend/src/pages/SignUp.jsx:73-76 | a one-class regex test holds if and only if some character of the input is in the class |
| `SignUp.InClass` | frontend/src/pages/SignUp.jsx:73-76 | membership in a regex character class; stated by `SignUp.Test` and `SignUp.Validate` |
| `SignUp.Validate` | frontend/src/pages/SignUp.jsx:71-77 | each criterion holds if and only if its condition holds: length at least 8, some `A`–`Z`, some `a`–`z`, some `0`–`9`, some listed special character |
| `SignUp.EveryIff` | frontend/src/pages/SignUp.jsx:154 | `every(Boolean)` holds if and only if every element is true |
| `SignUp.Values` | frontend/src/pages/SignUp.jsx:154 | `Object.values` of the criteria; stated by `SignUp.IsPasswordValidIff` |
| `SignUp.Every` | frontend/src/pages/SignUp.jsx:154 | `every(Boolean)`; stated by `SignUp.EveryIff` |
| `SignUp.IsPasswordValid` | frontend/src/pages/SignUp.jsx:154 | `isPasswordValid`; stated by `SignUp.IsPasswordValidIff` and `SignUp.PasswordAcceptedIff` |
| `SignUp.DoPasswordsMatch` | frontend/src/pages/SignUp.jsx:155-157 | `doPasswordsMatch`; stated by `SignUp.Submit` and `SignUp.SignupSentIff` |
| `SignUp.IsPasswordValidIff` | frontend/src/pages/SignUp.jsx:154 | `isPasswordValid` holds if and only if all five criteria hold |
| `SignUp.PasswordAcceptedIff` | frontend/src/pages/SignUp.jsx:71-77 | a password's criteria all hold if and only if it has 8 characters, a capital, a small letter, a digit and a special character |
| `SignUp.EmptyPasswordMeetsNothing` | frontend/src/pages/SignUp.jsx:42-48 | the initial all-false criteria are exactly those of the initial empty password |
| `SignUp.UnderscoreIsNotSpecial` | frontend/src/pages/SignUp.jsx:76 | `Abcdefg1_` meets every criterion except the special one |
| `SignUp.WordCharNotSpecial` | frontend/src/pages/SignUp.jsx:76 | letters, digits and `_` are not in the special class |
| `SignUp.StrongPasswordExample` | frontend/src/pages/SignUp.jsx:71-77 | `Abcdefg1!` meets all five criteria |
| `SignUp.Submit` | frontend/src/pages/SignUp.jsx:84-95 | weak criteria block with the requirements message; otherwise a mismatch blocks with the mismatch message; otherwise the payload is exactly e-mail and password |
| `SignUp.DisabledIffBlocked` | frontend/src/pages/SignUp.jsx:435 | the submit button is disabled if and only if submitting would be blocked |
| `SignUp.SubmitDisabled` | frontend/src/pages/SignUp.jsx:435 | the button's `disabled`; stated by `SignUp.DisabledIffBlocked` |
| `SignUp.RequirementsReportedFirst` | frontend/src/pages/SignUp.jsx:84-91 | a weak password is reported even when the confirmation also differs |
| `SignUp.SignupSentIff` | frontend/src/pages/SignUp.jsx:62-95 | `handleSubmit` hands back a payload if and only if the password meets all five criteria and equals the confirmation |
| `SignUp.SignUpForm.constructor` | frontend/src/pages/SignUp.jsx:36-50 | the form starts with three empty fields, all-false criteria and no error, consistent with the invariant |
| `SignUp.SignUpForm.HandleInputChange` | frontend/src/pages/SignUp.jsx:62-79 | the named field takes the value and the others keep theirs; the criteria are recomputed only for the password field; the invariant is kept |
| `SignUp.SignUpForm.HandleSubmit` | frontend/src/pages/SignUp.jsx:81-95 | the error is cleared and then set as `Submit` decides; a request is returned exactly when `Submit` sends one; the fields are unchanged |
| `RootLayout.MatchTail` | frontend/src/components/layout/root-layout.jsx:25 | `[^/]+$` matches if and only if the rest is slash-free and non-empty |
| `RootLayout.IsProblemPage` | frontend/src/components/layout/root-layout.jsx:25 | reference definition of the regex: `/problems/`, then one or more characters, none a `/`; tied to the regex by `RootLayout.TestProblemRoute` |
| `RootLayout.MatchProblemRoute` | frontend/src/components/layout/root-layout.jsx:25 | the character-by-character matcher accepts if and only if the path is a single problem page |
| `RootLayout.TestProblemRoute` | frontend/src/components/layout/root-layout.jsx:25 | the regex test holds if and only if the path is `/problems/` followed by one or more non-slash characters |
| `RootLayout.HideNavFooter` | frontend/src/components/layout/root-layout.jsx:22-27 | hidden if and only if the path is an exception route or a single problem page |
| `RootLayout.Layout` | frontend/src/components/layout/root-layout.jsx:33-35 | the app is always rendered; the navbar and the footer appear together, exactly when the route is not hidden |
| `RootLayout.ExceptionRoutesHide` | frontend/src/components/layout/root-layout.jsx:9-18 | every exception route renders only the app |
| `RootLayout.ProblemPageHides` | frontend/src/components/layout/root-layout.jsx:25 | `/problems/two-sum` hides the navbar and the footer |
| `RootLayout.NestedProblemPathShows` | frontend/src/components/layout/root-layout.jsx:25 | no path of the form `/problems/<id>/...` is a problem page |
| `RootLayout.NearMissesShow` | frontend/src/components/layout/root-layout.jsx:22-27 | `/signin/`, `/problems`, `/problems/` and `/problems/a/b` all show the navbar and the footer |
| `Navbar.ActiveLinkIff` | frontend/src/components/layout/navbar-v2.jsx:50-52 | a link other than profile is active if and only if the path starts with it and ends there or continues with `/` |
| `Navbar.IsActiveLink` | frontend/src/components/layout/navbar-v2.jsx:44-53 | `isActiveLink`; stated by `Navbar.ActiveLinkIff`, `Navbar.ActiveIsPrefix`, `Navbar.ActiveLinkBoundaries` and `Navbar.AtMostOneActiveLink` |
| `Navbar.ActiveIsPrefix` | frontend/src/components/layout/navbar-v2.jsx:44-53 | an active link is always a prefix of the path |
| `Navbar.ActiveLinkBoundaries` | frontend/src/components/layout/navbar-v2.jsx:44-53 | `/profileX` activates the profile link; `/problems/two-sum` activates problems but `/problemsX` does not |
| `Navbar.AtMostOneActiveLink` | frontend/src/components/layout/navbar-v2.jsx:24-29 | no path highlights two navigation links |
| `Navbar.FirstCharsOfSplit` | frontend/src/components/layout/navbar-v2.jsx:217-219 | splitting at spaces and taking each piece's first character gives exactly the word starts of the name |
| `Navbar.Head` | frontend/src/components/layout/navbar-v2.jsx:218-219 | `n[0]` as `join` renders it: empty for an empty piece |
| `Navbar.FirstChars` | frontend/src/components/layout/navbar-v2.jsx:218-219 | `map((n) => n[0]).join("")`; stated by `Navbar.FirstCharsOfSplit` and `Navbar.FirstCharsOfWords` |
| `Navbar.WordStarts` | frontend/src/components/layout/navbar-v2.jsx:215-221 | reference definition of the initials: the non-space characters at the start or after a space; tied to the code by `Navbar.FirstCharsOfSplit` |
| `Navbar.Initials` | frontend/src/components/layout/navbar-v2.jsx:215-221 | a missing or empty name gives `U`; otherwise the initials are the upper-cased word starts, with no small letter left |
| `Navbar.NoWordStartsInSpaces` | frontend/src/components/layout/navbar-v2.jsx:217-219 | a run of spaces has no word starts |
| `Navbar.BlankNameHasNoInitials` | frontend/src/components/layout/navbar-v2.jsx:215-221 | a name made only of spaces gets empty initials, not `U` |
| `Navbar.FirstCharsOfWords` | frontend/src/components/layout/navbar-v2.jsx:218-219 | the first characters of non-empty words are their heads |
| `Navbar.InitialsOfWords` | frontend/src/components/layout/navbar-v2.jsx:215-221 | words joined by single spaces get one initial per word: the capital of its first letter |
| `Navbar.InitialsExample` | frontend/src/components/layout/navbar-v2.jsx:215-221 | `Ada Lovelace` is shown as `AL` |
| `Navbar.DisplayName` | frontend/src/components/layout/navbar-v2.jsx:262 | the shown name is never empty: the name when present, `User` otherwise |
| `Navbar.AvatarAlt` | frontend/src/components/layout/navbar-v2.jsx:212 | the alt text is never empty: the name, else the e-mail, else `User` |
| `Navbar.AltDiffersFromNameIff` | frontend/src/components/layout/navbar-v2.jsx:212-262 | the alt text differs from the shown name if and only if the name is missing and a non-empty e-mail other than `User` is present |
| `Navbar.ToUpperIsU` | frontend/src/components/layout/navbar-v2.jsx:220 | only `u` and `U` upper-case to `U` |
| `Navbar.InitialsAreUIff` | frontend/src/components/layout/navbar-v2.jsx:215-221 | the initials read `U` if and only if the name is missing or empty, or has a single word start that is `u` or `U` |
| `Navbar.ItemsOf` | frontend/src/components/layout/navbar-v2.jsx:307-336 | both menus offer profile, settings and log out; only the mobile menu has the theme item |
| `Navbar.MobileMenuCoversNavLinks` | frontend/src/components/layout/navbar-v2.jsx:457-481 | each navigation link is reachable from the mobile menu |
| `Navbar.ItemEffect` | frontend/src/components/layout/navbar-v2.jsx:307-501 | what each item's handler asks for; stated by `Navbar.Choose` and `Navbar.MobileMenuCoversNavLinks` |
| `Navbar.ItemEnabled` | frontend/src/components/layout/navbar-v2.jsx:430 | only the theme item is disabled, while the transition runs; stated by `Navbar.Choose` and `Navbar.ThemeItemKeepsMenu` |
| `Navbar.IsOpen` | frontend/src/components/layout/navbar-v2.jsx:193-227 | `open={openDropdown === k}` and the content guard; stated by `Navbar.Click` and `Navbar.OpenChange` |
| `Navbar.Click` | frontend/src/components/layout/navbar-v2.jsx:203-206 | clicking a trigger opens that menu if and only if it was closed, never leaves the other menu open, and leaves the settings modal alone |
| `Navbar.OpenChange` | frontend/src/components/layout/navbar-v2.jsx:192-196 | `onOpenChange(val)` leaves that menu open if and only if `val`, and the other closed |
| `Navbar.Choose` | frontend/src/components/layout/navbar-v2.jsx:428-501 | an item's own `onClick`: a disabled item does nothing; an enabled one requests its effect; the modal opens only for settings |
| `Navbar.OpenSettingsModal` | frontend/src/components/layout/navbar-v2.jsx:143-165 | the Settings button opens the modal and leaves the menus alone |
| `Navbar.CloseSettings` | frontend/src/components/layout/navbar-v2.jsx:41 | closing the modal leaves the menus alone |
| `Navbar.ClickTwice` | frontend/src/components/layout/navbar-v2.jsx:203-206 | two clicks on a trigger restore the state when the other menu is not open |
| `Navbar.ClickSwitchesMenus` | frontend/src/components/layout/navbar-v2.jsx:360-363 | opening a menu while the other is open switches to it |
| `Navbar.ItemsCloseMenus` | frontend/src/components/layout/navbar-v2.jsx:457-501 | every item but the theme item leaves both menus closed |
| `Navbar.ThemeItemKeepsMenu` | frontend/src/components/layout/navbar-v2.jsx:428-430 | a click on the theme item toggles the theme but keeps the menu open, and does nothing while the transition runs |
| `Navbar.ThemeKeyDown` | frontend/src/components/layout/navbar-v2.jsx:437-442 | the theme item's `onKeyDown`: Enter or Space, and only they, request a theme toggle; the menus and modal stay as they are |
| `Navbar.KeyDownBypassesTransitionGuard` | frontend/src/components/layout/navbar-v2.jsx:428-442 | while the transition runs a click on the theme item does nothing but Enter still toggles; otherwise Space does what a click does |
| `Navbar.SettingsModalRoundTrip` | frontend/src/components/layout/navbar-v2.jsx:40-41 | opening then closing the modal leaves the menus as they were |
| `Navbar.SettingsFromEitherMenu` | frontend/src/components/layout/navbar-v2.jsx:318-321 | settings, from either menu, ends with the modal open and no menu open |
| `Navbar.NavbarMenus.constructor` | frontend/src/components/layout/navbar-v2.jsx:33-34 | both menus closed and the modal closed |
| `Navbar.NavbarMenus.ClickTrigger` | frontend/src/components/layout/navbar-v2.jsx:360-363 | the new state is `Click` of the old |
| `Navbar.NavbarMenus.OnOpenChange` | frontend/src/components/layout/navbar-v2.jsx:351-353 | the new state is `OpenChange` of the old |
| `Navbar.NavbarMenus.ChooseItem` | frontend/src/components/layout/navbar-v2.jsx:488-500 | the new state and the effect are `Choose` of the old state |
| `Navbar.NavbarMenus.ThemeItemKeyDown` | frontend/src/components/layout/navbar-v2.jsx:437-442 | the state is unchanged and the effect is `ThemeKeyDown` of it |
| `Navbar.NavbarMenus.PressSettingsButton` | frontend/src/components/layout/navbar-v2.jsx:155 | the new state is `OpenSettingsModal` of the old |
| `Navbar.NavbarMenus.CloseSettingsModal` | frontend/src/components/layout/navbar-v2.jsx:517-519 | the new state is `CloseSettings` of the old |

## Left out

- Process spawning, gcc, the shell and the file system (`exec`, `spawn`, `fs.existsSync`/`mkdirSync` at module load) are not modelled: the compile outcome and the child's events are inputs.
- The platform check `process.platform` and `__dirname` are not modelled: they are the parameters `isWindows` and `outputDir`.
- The runner has no timeout, output limit or verdict classification. The source has none.
- Chunks arrive as Buffers; their decoding to text by `+=` is not modelled. Chunks are strings.
- `path.join` normalization is not modelled. `outputDir` is taken to be normalized without a trailing separator, and `path.join` is that directory, one separator and the file name (the file name never holds a separator, by `ExecuteC.OutputFilename`).
- `ExecuteC.QuotedArgs`: only double quotes are modelled as shell syntax. `$`, backquotes and backslashes inside quotes are not interpreted.
- JavaScript strings are UTF-16: `length` counts code units, while Dafny counts characters. `toUpperCase` is modelled for ASCII letters only.
- What `handleSubmit` does after its checks is not modelled: the signup request, login, navigation, and the profile-completion modal with `handleProfileSubmit`. These need the network and the router.
- JSX rendering, animations, icons and styling are not modelled. The show-password toggles and Google OAuth redirect are also left out.
- The navbar's standalone theme buttons and the `toggleTheme`, `navigate` and `logout` calls are not performed. They appear only as returned `Effect`s, because they belong to other modules (theme and auth contexts, router).
- `SignUp.SignupSentIff`: the browser checks the form before `handleSubmit` runs and is not modelled. All four inputs are `required` and the e-mail input is `type="email"` (frontend/src/pages/SignUp.jsx:229-234, 251, 368, 409), so an empty or malformed e-mail or an unticked terms box sends nothing. The lemma describes `handleSubmit` alone.
- `Navbar.ThemeItemKeepsMenu`: holds of the click handler only. The theme item's key handler toggles without the transition guard (`Navbar.ThemeKeyDown`). Whether the menu library blocks key events on a disabled item is not modelled.
- `Navbar.Choose` and `Navbar.ItemsCloseMenus` describe each item's own handler. What the dropdown library does on selection, such as calling `onOpenChange(false)`, is not modelled beyond the separate event `Navbar.OpenChange`. The theme item passes both `onClick={toggleTheme}` and `disabled={isTransitioning}` (frontend/src/components/layout/navbar-v2.jsx:429-430). The model assumes the library suppresses a disabled item's `onClick`; the source itself does not check `isTransitioning`.
- The account menus render only for an authenticated user. `isAuthenticated` is not modelled; the menu model describes the authenticated navbar.
- `frontend/src/utils/api.js`, the backend routes and `frontend/src/components/ui/cropper.jsx` are not part of this model.
