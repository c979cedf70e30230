# captain-miao dashboard: verified models

These Dafny files model the state machines and text algorithms of the
captain-miao dashboard and prove what they promise over every run or every
input. One module follows one source file (or one algorithm of it). Objects
that the source mutates are classes whose methods are proved against a
functional specification of the same step; the theorems about whole runs are
lemmas over that specification.

| file | module | models |
|---|---|---|
| `options.dfy` | Options | option and result types |
| `common.dfy` | Common | elapsed time, cell size, Unicode white space |
| `render_backend.dfy` | RenderBackend | the wide-glyph reordering of terminal updates, and a terminal that paints VS16 emoji one or two columns wide |
| `bindings.dfy` | Bindings | the two-level window table with its expectation and grace memories |
| `launch.dfy` | Launch | session launches: reservation and spawn workers, pushed rows, exit reports, input, timeout |
| `agent_logos.dfy` | AgentLogos | the cache of remote terminal graphics, over a connection where any write may fail part-way |
| `logo_canvas.dfy` | LogoCanvas | trimming and fitting the artwork |
| `persistence.dfy` | Persistence | the ordered writer behind a mutex and a condition variable |
| `keymap.dfy` | Keymap | configuration overlay, prefix table, key dispatch |
| `notifications.dfy` | Notifications | popup timers: `tick` against `next_wakeup` |
| `messages.dfy` | Messages | message wrapping, history, selection |
| `field_wrap.dfy` | FieldWrap | value wrapping under a cursor |
| `picker.dfy` | Picker | the UTF-8 line editor |
| `ssh_forward.dfy` | SshForward | forwarding switches, specs, conflicts, migration |

Verify with `dafny verify dfyconfig.toml`.

## Assumptions

- ratatui's diff is a set of hypotheses on a one-row stream (`RenderBackend.Diff`):
  positions strictly increase; every head cell that differs is emitted; a
  reserved column is emitted only with its glyph; the reserved column of an
  emitted VS16 glyph is emitted when the old cell there was not blank; reserved
  columns are blank in both rows. A grapheme measures at most two cells and one
  with VS16 measures two.
- A launch id is minted fresh, and no two live launches hold the same host and
  token (`Launch.Legal`). `Launch.ReportLosesUnfinishedIff` says exactly what
  goes wrong without the second.
- At most one logo per screen row, because a placement is named by its row.
- A space is one cell wide in an edited field.
- The default key table names each command once; where stated, no two of its
  rows share a sequence.

## Where the code and its comments differ

- The writer is documented as ordered. It is ordered per key; across keys the
  map hands out its least key first (`Persistence.AcrossKeysOrderIsKeyOrder`).
  A run writes in submission order exactly when what has begun was in order and
  before everything queued, and the queue's key order agrees with it
  (`Persistence.FutureInOrderIff`); `Persistence.OrderAfterSubmitIff` says when
  it is so after a submission, which can put right what another put wrong
  (`Persistence.ResubmittingRestoresOrder`).
- `tick` is documented to be true exactly when a frame is needed. True always
  means a visible change, but overlapping notices can hide one
  (`Notifications.SecondNoticeIsMissed`); `Notifications.ChangeIsMissedIff`
  says when, in terms of what appears, stops fading, lapses or turns since the
  last tick.
- `wrap_ranges` is documented to keep each line to `width` cells. It checks a
  character against a line before moving to a new one, and not again after what
  the break left behind has moved along. With two-cell characters a line
  reaches one cell over exactly when the line before is a lone space and a
  two-cell character follows `width - 1` cells without a space
  (`FieldWrap.OverIff`, `FieldWrap.WideCharacterIsCarriedOver`), or the width is
  one (`FieldWrap.KeepsToWidthIff`). A cursor on that character is drawn partly
  outside (`FieldWrap.CursorInsideIff`).
- It is documented to leave a blank line after a text that ends on a break. It
  never does: the last range is empty only for the empty text
  (`FieldWrap.IsWrapped`). So a cursor at the end is drawn outside the width
  exactly when the next character typed would start a new line
  (`FieldWrap.EndOutsideIff`, `FieldWrap.FullLineLosesTheCursor`), after a
  one-cell word exactly when the width divides its length
  (`FieldWrap.WordEndOutsideIff`).
- A word in the line editor is documented to end at whitespace or `/`. Only
  ASCII whitespace counts (`Picker.SeparatorsMatchIff`,
  `Picker.IdeographicSpaceIsCrossed`). The motions stop where the documentation
  says for exactly the texts of `Picker.BackAsDocumentedIff` and
  `Picker.ForwardAsDocumentedIff`.
- A remote listen port of zero is documented as refused. It is refused when
  spelled `0`; `00` passes (`SshForward.RemoteZeroRefusedIff`). Listeners are
  compared as text too (`SshForward.ClashSeenIff`).
- Of the collision warnings for a sequence, only the last names the command that
  gets it (`Keymap.OnlyTheLastWarningIsRight`), so all are right exactly when at
  most two commands claim it (`Keymap.WarningsRightIff`);
  `Keymap.ThreeClaimants` is a configuration with three.
- With a cell size of zero and logos wanted, every frame sends a cursor save
  and restore although nothing changes (`AgentLogos.UnchangedIsSilentIff`,
  `AgentLogos.ZeroCellIsNotSilent`).

## Model

| member | source | states |
|---|---|---|
| RenderBackend.ReservedColumnFirst.Next | src/app/render_backend.rs:170-189 | the iterator with its two slots yields the next element of the recursive "swap a wide cell with the column it reserves" |
| RenderBackend.Drain | src/app/render_backend.rs:164-189 | draining it yields exactly that reordered stream |
| RenderBackend.ReorderIsPermutation | src/app/render_backend.rs:140-145 | nothing is lost or duplicated |
| RenderBackend.ReorderIdempotent | src/app/render_backend.rs:140-145 | on an increasing stream a second pass moves nothing |
| RenderBackend.Screen.ClearGlyphAt | src/app/render_backend.rs:240-255 | writing on either half of a glyph blanks all of it, and covered columns keep an owner |
| RenderBackend.Screen.Paint | src/app/render_backend.rs:259-278 | a write clears the glyphs under its painted width, covers the columns it takes and advances the cursor |
| RenderBackend.Screen.Feed | src/app/render_backend.rs:280-286 | the cursor moves unless the cell follows the last one |
| RenderBackend.RepaintScreen | src/app/render_backend.rs:292-302 | the repaint loop computes the reference repaint |
| RenderBackend.RepaintMakesPicture | src/app/render_backend.rs:288-302 | a repaint makes the row's picture: each glyph at its column, covered right halves only where painted wide |
| RenderBackend.Draw | src/app/render_backend.rs:90-95 | a draw feeds the reordered stream |
| RenderBackend.LandsIffNoDrift | src/app/render_backend.rs:280-286 | every write lands on its own column iff no write directly follows its left neighbour when that one was painted on two columns |
| RenderBackend.ReorderedStreamDoesNotDrift | src/app/render_backend.rs:140-189 | a reordered increasing stream never has such a write, at either emoji width |
| RenderBackend.ReorderedStreamLands | src/app/render_backend.rs:140-189 | so every write of it lands on its own column despite elided moves |
| RenderBackend.LandingWritesPaintInPlace | src/app/render_backend.rs:259-286 | a stream that lands paints each symbol at the column the buffer meant |
| RenderBackend.Replay | src/app/render_backend.rs:170-189 | glyph by glyph, the reordered stream turns the old picture into the new one |
| RenderBackend.UpdateEqualsRepaint | src/app/render_backend.rs:170-189 | for all rows and every stream meeting the diff contract, an incremental update ends exactly where a repaint would, at either emoji width |
| RenderBackend.Refresh | src/app/render_backend.rs:325-366 | the same on the mutable terminal |
| RenderBackend.DiffOrderDrifts | src/app/render_backend.rs:369-389 | in the diff's own order a two-column terminal loses the neighbouring character |
| RenderBackend.DroppingReservedLeavesDebris | src/app/render_backend.rs:140-145 | with the reserved column dropped, a one-column terminal keeps what was there |
| Bindings.WindowBindings.Take | src/app/bindings.rs:137-144 | removes one binding of the flat table and never leaves an empty inner map |
| Bindings.WindowBindings.Record | src/app/bindings.rs:148-165 | the whole new memory: bound, expected, no longer answerable late |
| Bindings.WindowBindings.Remove | src/app/bindings.rs:174-187 | the whole new memory after a deliberate detach, and the window it held |
| Bindings.WindowBindings.PruneToken | src/app/bindings.rs:201-211 | answers from the live table, else once from the grace map within the grace |
| Bindings.WindowBindings.WindowFor | src/app/bindings.rs:232-234 | lookup agrees with the flat table |
| Bindings.WindowBindings.ExpectedWithoutWindow | src/app/bindings.rs:215-222 | exactly the expected, windowless tokens of the host, each once |
| Bindings.WindowBindings.RetainExpected | src/app/bindings.rs:227-229 | keeps exactly the expectations with a row |
| Bindings.WindowBindings.PruneDead | src/app/bindings.rs:239-264 | retires exactly the bindings whose window is gone, sweeps old grace entries first, and returns each key once |
| Bindings.StepSnaps | src/app/bindings.rs:239-264 | what a snapshot leaves: the gone windows answerable late with how long they were held, the rest as before, and nothing past the grace |
| Bindings.WindowBindings.IsEmpty | src/app/bindings.rs:267-269 | the outer map alone decides whether any binding exists |
| Bindings.WindowBindings.HasRemote | src/app/bindings.rs:276-278 | the outer keys alone decide whether a remote binding exists |
| Bindings.LiveAndGraceDisjoint | src/app/bindings.rs:148-211 | over all runs no key is both live and answerable late |
| Bindings.WindowsAreConserved | src/app/bindings.rs:174-211 | over all runs a window is handed back at most as often as it was recorded |
| Bindings.ExpectedIff | src/app/bindings.rs:148-187 | a key is expected iff it was recorded and not since removed or swept |
| Bindings.LiveIff | src/app/bindings.rs:137-264 | a window is bound iff it was recorded and nothing since unbinds it |
| Bindings.SilentAfterRemove | src/app/bindings.rs:174-187 | after a deliberate detach nothing answers until the next record |
| Bindings.LateReportAnsweredIffInGrace | src/app/bindings.rs:201-211 | a report that lost the race is answered with the retired window and how long it was held iff within the grace, whatever happens to other keys meanwhile |
| Bindings.DetectorsCommute | src/app/bindings.rs:201-264 | snapshot and report reach the same memory in either order, and give the same window iff the report is within the grace |
| Launch.Launches.Start | src/app/launch.rs:167-182 | the new launch is the only selected one and cancels a queued focus |
| Launch.Launches.Poll | src/app/launch.rs:186-234 | launch by launch: a reserved one goes on under the session's name or its own id, one whose terminal named a window is bound and reported with it, any other reply ends it without a window, and no reply leaves it alone |
| Launch.PollAdvances | src/app/launch.rs:186-234 | the same of every poll step of a run |
| Launch.PollIsCareful | src/app/launch.rs:198-217 | a window is opened only for a reserved launch whose backend still allows it, and bound only if the terminal named it |
| Launch.Launches.Reconcile | src/app/launch.rs:256-287 | exactly the bound launches with a row or past the deadline leave, the late ones' hosts are told; the selected one's first matching row gets the cursor, and the focus if Enter was queued |
| Launch.CursorFollowsTheSelected | src/app/launch.rs:268-276 | the cursor goes to the row of the selected launch iff that launch is confirmed |
| Launch.Launches.Select | src/app/launch.rs:306-315 | exactly the named launch is selected |
| Launch.Launches.ClearSelection | src/app/launch.rs:289-294 | nothing stays selected or queued |
| Launch.Launches.CancelActivation | src/app/launch.rs:317-322 | nothing stays queued |
| Launch.Launches.RequestActivation | src/app/launch.rs:324-328 | only the selected launch is queued |
| Launch.Launches.DeferReport | src/app/launch.rs:336-353 | kept on a spawning launch, else every launch of the pair closes, else not ours |
| Launch.Launches.TakeFocus | src/app/launch.rs:436-447 | the queued focus is consumed, and delivered only if the user still points at it |
| Launch.EveryRunKeepsStories | src/app/launch.rs:186-353 | in every interleaving each launch's history is: nothing, then one spawn under its recorded token, then its kept reports, then one outcome carrying those reports once and in order, with a window if it is bound |
| Launch.OneWindowOneOutcome | src/app/launch.rs:186-234 | each launch opens at most one window, and has had its one outcome iff it is bound or gone |
| Launch.ReportStory | src/app/launch.rs:336-353 | a report joins the history of the one launch it names |
| Launch.EveryEventIsAccounted | src/app/launch.rs:186-234 | in every run a spawn has the token its backend reserved or its own id, an outcome carries the window the terminal named for that launch, and one without a window follows a reply that named none |
| Launch.LinesOf | src/app/launch.rs:236-253 | a live launch's lines are its placeholder, or exactly its real rows and never both |
| Launch.OneLineIff | src/app/launch.rs:236-253 | it is one line iff it is not bound or no two pushed rows carry its host and token |
| Launch.OneLineInEveryRun | src/app/launch.rs:236-253 | so in every reachable state and for any pushed rows, with at most one launch selected |
| Launch.OnlyRequestsActivate | src/app/launch.rs:317-328 | no step but an Enter queues an activation |
| Launch.HandoverBelongs | src/app/launch.rs:256-287 | the focus handed over is the row of one queued, confirmed launch, which leaves the list |
| Launch.FocusDeliveredAtMostOnce | src/app/launch.rs:324-328 | in every run each launch hands over and is delivered at most once, only after Enter was pressed on it, and a focus still owed has not been delivered |
| Launch.DeliveredIffPointedAt | src/app/launch.rs:436-447 | a queued focus is used up, and delivered to the launch it came from iff the user attends and still points at its row |
| Launch.NothingDeliveredAfterInput | src/app/keys.rs:58-60 | after other input nothing is delivered until Enter is pressed again |
| Launch.NoStaleWaiting | src/app/launch.rs:256-287 | no waiting launch survives a reconcile at or past its deadline, or one that shows its row |
| Launch.ReportLosesUnfinishedIff | src/app/launch.rs:336-353 | a report discards a launch still spawning iff an earlier launch past that point shares its pair |
| AgentLogos.Wire.Write | src/app/agent_logos.rs:134-219 | a write that fails may or may not have taken effect |
| AgentLogos.AgentLogos.Invalidate | src/app/agent_logos.rs:130-132 | only a terminal that may hold our images is distrusted |
| AgentLogos.AgentLogos.Clear | src/app/agent_logos.rs:206-219 | on success nothing of ours is left and the cache says so; on failure the cache is untouched |
| AgentLogos.AgentLogos.DeleteStale | src/app/agent_logos.rs:175-179 | leaves exactly the placements still wanted |
| AgentLogos.AgentLogos.PlaceMissing | src/app/agent_logos.rs:180-201 | uploads what is not stored, places what is not shown, and nothing else |
| AgentLogos.AgentLogos.RenderInner | src/app/agent_logos.rs:162-204 | after success the terminal shows exactly the wanted logos, or none without a positive cell size |
| AgentLogos.AgentLogos.StoreImage | src/app/agent_logos.rs:180-184 | uploads the icon's own art at the cell size, dim for the odd icons, iff it is not stored, and shows nothing |
| AgentLogos.AgentLogos.PlaceTarget | src/app/agent_logos.rs:179-199 | sends exactly the upload and the placement that are missing, under the icon's image and the row's number |
| AgentLogos.AgentLogos.Render | src/app/agent_logos.rs:134-160 | for any failures: the cache agrees with the terminal or is distrusted; success iff no write failed; after success exactly the wanted logos are placed, or none without a positive cell size; silent iff nothing changed; the cursor is saved first iff logos are wanted at a known size and something changed; placements lie between a cursor save and an attempted restore; foreign images are untouched |
| AgentLogos.PlayOne | src/app/agent_logos.rs:97-219 | one event: what it leaves on screen and in the cache, and when a frame sends nothing |
| AgentLogos.Play | src/app/agent_logos.rs:97-219 | over any run of collects, lossy resizes and failing frames the cache stays sound, a frame with no failure succeeds, each successful frame shows the logos collected last, and the next frame is silent iff the size and the logos wanted call for no change |
| AgentLogos.UnchangedIsSilentIff | src/app/agent_logos.rs:134-160 | an unchanged frame is silent iff the cell size is unknown or positive or no logo is wanted |
| AgentLogos.ZeroCellIsNotSilent | src/app/agent_logos.rs:134-160 | a second, unchanged frame with cells of no height sends a cursor save and restore |
| AgentLogos.PlaceOne | src/app/agent_logos.rs:77-85 | placing adds exactly one target, thanks to one logo per row |
| AgentLogos.FreedIsEmpty | src/app/agent_logos.rs:206-219 | once our images are freed, nothing of ours is stored or shown |
| AgentLogos.NothingBeforeFirstSize | src/app/agent_logos.rs:206-213 | an unsupported terminal has received nothing |
| LogoCanvas.BoundingBox | src/app/agent_logos.rs:226-236 | the box holds every visible pixel and is tight on each side |
| LogoCanvas.FitHoldsTheArt | src/app/agent_logos.rs:240-253 | for every cell size the art fits with a blank row above and below and at most 85% of the height |
| LogoCanvas.FitKeepsProportions | src/app/agent_logos.rs:245-249 | below the cap the canvas has the cell's proportions to within a pixel |
| LogoCanvas.FitIsTight | src/app/agent_logos.rs:240-250 | the canvas is as narrow as the art or of the least height that pads it, and the other side is the cell's proportion rounded up, capped |
| LogoCanvas.ArtIsCentred | src/app/agent_logos.rs:251-252 | the art is in the middle to within half a pixel |
| LogoCanvas.FitStaysInU32 | src/app/agent_logos.rs:240-250 | no product overflows 32 bits for any 16-bit cell |
| LogoCanvas.CopyPixel | src/app/agent_logos.rs:255-260 | copies one pixel's four bytes, halving only alpha when dim |
| LogoCanvas.CopyArt | src/app/agent_logos.rs:253-263 | the copying loops fill exactly the art's rectangle |
| LogoCanvas.Canvas | src/app/agent_logos.rs:225-265 | the whole picture, or one blank pixel for blank art; never out of range |
| LogoCanvas.VisiblePixelKept | src/app/agent_logos.rs:222-224 | every visible source pixel is in the picture with its colour, alpha alone halved when dim |
| LogoCanvas.MarginsAreBlank | src/app/agent_logos.rs:222-224 | nothing else is, and the first and last rows are blank |
| Persistence.LeastKey | src/app/persistence.rs:36 | the key handed out is the least in string order |
| Persistence.Writer.SubmitWrite | src/app/persistence.rs:50-54 | a later write of a key replaces the queued one and the worker is woken |
| Persistence.Writer.Inspect | src/app/persistence.rs:28-38 | the worker sleeps, ends or takes the least key |
| Persistence.Writer.Finish | src/app/persistence.rs:40-44 | the write is no longer active and its error is kept |
| Persistence.Writer.CollectErrors | src/app/persistence.rs:61-63 | hands out every error once |
| Persistence.Writer.Idle | src/app/persistence.rs:56-59 | true iff nothing is queued or running, and then every latest value has been written last |
| Persistence.Writer.Drop | src/app/persistence.rs:66-71 | stop is raised before the signal |
| Persistence.Writer.Drain | src/app/persistence.rs:27-45 | once stopped the loop ends, having written everything queued in key order; the whole run is in submission order iff it was so far and the queue's keys agree with it |
| Persistence.StepKeepsInv | src/app/persistence.rs:26-71 | every step keeps: one active write, per-key order, latest value accounted for, no lost wake-up, no lost error |
| Persistence.ReachableInv | src/app/persistence.rs:26-71 | so does every interleaving |
| Persistence.LatestIsSomewhere | src/app/persistence.rs:36-41 | a key's latest write is queued, running, or the last one run for it |
| Persistence.IdleMeansSaved | src/app/persistence.rs:56-59 | idle means every latest value is written |
| Persistence.RunOnceOrSuperseded | src/app/persistence.rs:50-54 | a write runs at most once and is skipped only for a later one of its key |
| Persistence.StopDrains | src/app/persistence.rs:30-35 | after the stop signal only the worker moves, and each step uses up a measure |
| Persistence.WorkerCanMove | src/app/persistence.rs:30-35 | and until it is done it can move |
| Persistence.StopTerminates | src/app/persistence.rs:66-71 | so every run after the drop is bounded and one that is stuck is done, with everything saved |
| Persistence.InOrderIff | src/app/persistence.rs:36 | the queue leaves in submission order iff key order agrees with it |
| Persistence.FutureInOrderIff | src/app/persistence.rs:36-41 | all that was and will be written is in submission order iff what has begun is, precedes everything queued, and the queue's key order agrees |
| Persistence.WorkKeepsOrder | src/app/persistence.rs:36-41 | no step of the worker makes or breaks that |
| Persistence.OrderAfterSubmitIff | src/app/persistence.rs:50-54 | after a submission it holds iff it held of all but the write replaced, and no greater key is queued |
| Persistence.ResubmittingRestoresOrder | src/app/persistence.rs:50-54 | "b", "a" is out of order and "b", "a", "b" is in order again |
| Persistence.WorkKeepsFuture | src/app/persistence.rs:36-41 | what has been and will be written changes only by submitting |
| Persistence.AcrossKeysOrderIsKeyOrder | src/app/persistence.rs:1-2 | a reachable state whose writes ran out of submission order |
| Keymap.Build | src/app/keymap.rs:722-756 | each sequence belongs to its last claimant, prefixes are exactly the proper prefixes of bound sequences, the display list is exactly the winners in order |
| Keymap.ParseKey | src/app/keymap.rs:183-192 | a key parses iff it has one to three tokens that all name keys |
| Keymap.ReadConfig | src/app/keymap.rs:632-664 | the overrides and warnings are the same for every order of reading the configuration |
| Keymap.EveryKeyIsAccounted | src/app/keymap.rs:643-664 | each key of an entry is bound to its command, or warned about as unreadable or as misusing Ctrl-c; an entry binds nothing else, so an empty one unbinds |
| Keymap.NamesMean | src/app/keymap.rs:632-642 | the legacy name counts only without the canonical one, and an unknown name is told |
| Keymap.CtrlCOnlyQuits | src/app/keymap.rs:646-652 | no override binds Ctrl-c to anything but quitting, alone |
| Keymap.ClaimedStaysClaimed | src/app/keymap.rs:620-625 | a sequence an override claims goes to an overridden command that lists it |
| Keymap.OverridesAreBound | src/app/keymap.rs:669-671 | every sequence of an override is bound |
| Keymap.OthersKeepTheRest | src/app/keymap.rs:672-680 | a command nobody overrides keeps exactly its unclaimed defaults |
| Keymap.FindCollisions | src/app/keymap.rs:683-699 | the collision loop computes the warnings of the binding list |
| Keymap.WarnedIffShared | src/app/keymap.rs:683-699 | a sequence is warned about iff two commands list it |
| Keymap.WarningsAreTakeovers | src/app/keymap.rs:683-699 | the warnings about a sequence are one per claimant after the first, each taking it from the one before |
| Keymap.LastWarningNamesTheOwner | src/app/keymap.rs:690-696 | the last warning for a sequence names the command that holds it |
| Keymap.OnlyTheLastWarningIsRight | src/app/keymap.rs:690-696 | a warning for a sequence names its holder iff it is the last one for it |
| Keymap.WarningsRightIff | src/app/keymap.rs:690-696 | all warnings for a sequence are right iff at most two commands list it |
| Keymap.ThreeClaimants | src/app/keymap.rs:626-699 | a configuration of three overrides that draws a warning whose winner does not get the key |
| Keymap.FindUnreachable | src/app/keymap.rs:703-717 | a binding is warned unreachable iff it is bound and a longer one continues it |
| Keymap.FromConfig | src/app/keymap.rs:626-720 | the resulting table, its display list and the complete set of warnings |
| Keymap.Dispatcher.HandleNormalKey | src/app/keys.rs:311-379 | one key, by what is pending and what the table holds: extend, complete, swallow, `g g`, run, pick or focus the digit's row, or nothing |
| Keymap.PendingIsPrefix | src/app/keys.rs:315-330 | whatever is typed, the pending prefix is empty or a proper prefix of a bound sequence, and was just typed |
| Keymap.RunsOnlyWhatWasTyped | src/app/keys.rs:325-367 | a command runs only on a whole bound sequence just typed that nothing continues |
| Keymap.TypingRunsUnlessPrefix | src/app/keys.rs:319-336 | with nothing pending, typing a bound sequence runs its command iff it is not a prefix |
| Keymap.MissRunsNothing | src/app/keys.rs:319-346 | a miss in mid-sequence, or after a lone `g`, does nothing |
| Keymap.DoubleGJumpsIff | src/app/keys.rs:338-363 | `g g` jumps to the top iff `g` is neither bound nor begins a binding |
| Keymap.DigitPicksRow | src/app/keys.rs:369-379 | with nothing pending the unused d-th digit picks row d - 1, and with Ctrl focuses it |
| Keymap.UnusedDoesNothing | src/app/keys.rs:369-381 | any other unused key but a plain `g` does nothing, a digit with Alt or Shift among them |
| Keymap.OneAndNine | src/app/keys.rs:369-379 | "1", Ctrl-"9" and Alt-"1" with an empty table |
| Notifications.Notifications.Push | src/app/notifications.rs:88-103 | coalesces a repeated result, else takes the next id, which wraps; ids stay distinct |
| Notifications.Notifications.Update | src/app/notifications.rs:105-123 | rewrites the notice in place or adds it; its birth stays unless a finished one starts over |
| Notifications.Notifications.Remove | src/app/notifications.rs:83-86 | removes exactly the notice with the id |
| Notifications.Notifications.DismissOldest | src/app/notifications.rs:135-141 | removes exactly the first visible notice |
| Notifications.Notifications.Tick | src/app/notifications.rs:166-187 | drops exactly what expired and remembers the fade and the spinner it reports on |
| Notifications.Notifications.NextWakeup | src/app/notifications.rs:189-205 | the least delay any notice asks for, or none if none does |
| Notifications.NothingBeforeWakeup | src/app/notifications.rs:166-205 | after a tick, no tick before the wake-up reports more than a spinner frame, and none at all with no spinner on screen |
| Notifications.SpinnerWakesEveryStep | src/app/notifications.rs:200 | with a spinner on screen the wake-up is within one step, so no frame is skipped |
| Notifications.TickSettles | src/app/notifications.rs:168-169 | right after a tick nothing is expired |
| Notifications.ReportedChangeIsReal | src/app/notifications.rs:164-187 | when a tick reports a change the popups look different |
| Notifications.FadingKeptIff | src/app/notifications.rs:170-184 | at the next tick the stack is fading as before iff some notice fades throughout, or one starts exactly when another stops |
| Notifications.PhaseKeptIff | src/app/notifications.rs:174-185 | the spinner reported on shows the same frame iff the same spinner leads and has not turned, or a new one appears before it while it showed the frame every spinner appears with |
| Notifications.ChangeIsMissedIff | src/app/notifications.rs:164-205 | the next tick misses a change iff nothing lapses, the leading spinner keeps its frame, and something appears, stops fading or turns that the stack's fading does not give away |
| Notifications.SecondNoticeIsMissed | src/app/notifications.rs:164-187 | two notices 50 ms apart for which it does |
| Notifications.SingleNoticeIsExact | src/app/notifications.rs:164-187 | with a single notice tick is exact |
| Messages.Row | src/app/messages.rs:307-324 | one row: it ends with the line, or before the first glyph that does not fit if that is blank or the row is one word, or else before the row's last blank |
| Messages.Wrap | src/app/messages.rs:300-342 | terminates with ordered disjoint rows that skip only blanks, never cross a newline, keep indentation, otherwise start with a visible glyph, and break only when full |
| Messages.WrapIsUnique | src/app/messages.rs:300-342 | and no other rows do |
| Messages.OneCellRowsFit | src/app/messages.rs:295-299 | a row of one-cell glyphs has at most `width` of them |
| Messages.TwoWordsOnTwoRows | src/app/messages.rs:300-342 | two words in three cells, without the blank between them |
| Messages.SeenExactlyOnce | src/app/messages.rs:295-299 | every glyph that can be seen is on exactly one row |
| Messages.MessageLog.Push | src/app/messages.rs:55-79 | a repeat bumps a counter, else the entry is added and the oldest may go; ids stay consecutive and the log bounded |
| Messages.SelectedInside | src/app/messages.rs:92-112 | a selection inside one entry is its text between the two offsets |
| Messages.SelectedAcross | src/app/messages.rs:92-112 | one across entries is the tail of the first, each one between and the head of the last, a line break apart |
| Messages.UnmovedSelectsNothing | src/app/messages.rs:92-95 | nothing is selected until the pointer has moved |
| Messages.SelectedInstances | src/app/messages.rs:92-112 | "ell" of one entry, "lo" and "wo" of two |
| Messages.SwapKeepsSelection | src/app/messages.rs:193-200 | dragging from either end selects the same text |
| Messages.EvictionKeepsSelection | src/app/messages.rs:90-112 | evicting an entry outside the selection keeps the text |
| Messages.PushKeepsSelection | src/app/messages.rs:90-112 | so does any push that evicts nothing selected |
| FieldWrap.WrapRanges | src/app/draw.rs:1801-1830 | the ranges tile the text; each line is broken past its last space before the character that does not fit, or right before that; it holds the character carried onto it, and fits unless that is its last |
| FieldWrap.WrappingIsUnique | src/app/draw.rs:1801-1830 | and no other wrapping of the text does |
| FieldWrap.OverIff | src/app/draw.rs:1812-1821 | with characters of up to two cells a line is too wide iff the line before is a lone space and a two-cell character follows width - 1 cells without a space, or the width is one and the line holds a two-cell character |
| FieldWrap.LineFits | src/app/draw.rs:1792-1794 | one-cell characters always fit, two-cell ones reach one cell over at most |
| FieldWrap.KeepsToWidthIff | src/app/draw.rs:1792-1794 | exactly when every line keeps to the width |
| FieldWrap.WideCharacterIsCarriedOver | src/app/draw.rs:1812-1821 | " bb" and a wide character at width three make a line of four cells |
| FieldWrap.Carry | src/app/draw.rs:1813-1821 | the step that cuts a line and carries the rest of the word |
| FieldWrap.TextFieldLines | src/app/host_edit.rs:1888-1923 | with the keyboard in the field exactly one line shows the cursor, on the character at the clamped position with the text before it before it; otherwise none does; the lines together are the text, plus a blank under a cursor at its end |
| FieldWrap.CursorIsDrawn | src/app/host_edit.rs:1903-1911 | of the drawn lines exactly one has the cursor, on the right character |
| FieldWrap.CursorOnExactlyOneLine | src/app/host_edit.rs:1903-1911 | every cursor position is on exactly one line |
| FieldWrap.LinesShowTheText | src/app/host_edit.rs:1903-1922 | the lines show every character once and in order, plus one blank for a cursor at the end |
| FieldWrap.CursorInsideIff | src/app/host_edit.rs:1903-1911 | with characters of up to two cells the cursor on a character is outside the width iff that character is one of those carried over |
| FieldWrap.EndOutsideIff | src/app/host_edit.rs:1903-1907 | whatever the widths, the cursor at the end of the text is outside iff the next one-cell character typed starts a new line |
| FieldWrap.WordEndOutsideIff | src/app/draw.rs:1801-1830 | after a word of one-cell characters the cursor is outside iff the width divides the word's length |
| FieldWrap.FullLineLosesTheCursor | src/app/host_edit.rs:1903-1911 | two letters in two cells: the cursor after them is outside |
| FieldWrap.WideCharacterLosesTheCursor | src/app/host_edit.rs:1903-1911 | a two-cell character in one cell: so is the cursor on it |
| FieldWrap.CarriedCharacterLosesTheCursor | src/app/host_edit.rs:1903-1911 | and on a wide character carried over at width three |
| Picker.EncodingIsInjective | src/app/picker.rs:81-84 | a buffer is the UTF-8 form of one text only |
| Picker.DecodeEncode | src/app/picker.rs:163-166 | the bytes of a character read back as that character |
| Picker.BoundaryIff | src/app/picker.rs:91-111 | byte offsets that pass the boundary test are exactly the ends of whole characters |
| Picker.TextInput.PrevCharBoundary | src/app/picker.rs:91-100 | the scan finds the start of the character before |
| Picker.TextInput.NextCharBoundary | src/app/picker.rs:102-111 | the scan finds the end of the character after |
| Picker.TextInput.PrevWordBoundary | src/app/picker.rs:116-139 | the byte scan is the backward word motion on characters |
| Picker.TextInput.NextWordBoundary | src/app/picker.rs:141-161 | the byte scan is the forward word motion on characters |
| Picker.WordStartIs | src/app/picker.rs:113-139 | back over separators and then one word |
| Picker.WordEndIs | src/app/picker.rs:141-161 | forward over separators and then one word |
| Picker.SeparatorsMatchIff | src/app/picker.rs:113-115 | "whitespace or /" is what separates words except for whitespace outside ASCII |
| Picker.BackAsDocumentedIff | src/app/picker.rs:113-139 | the backward motion stops where the documentation says iff in the last run before the cursor no blank outside ASCII follows a separator or comes before a character of a word |
| Picker.ForwardAsDocumentedIff | src/app/picker.rs:141-161 | the forward one likewise, mirrored |
| Picker.IdeographicSpaceIsCrossed | src/app/picker.rs:113-161 | an ideographic space between two letters is crossed both ways |
| Picker.TextInput.HandleKey | src/app/picker.rs:225-385 | key by key, the buffer stays valid UTF-8 with the cursor on a boundary, the text and cursor change by exactly the characters or the word the key is for, any other key changes nothing, and the event says exactly what happened |
| Picker.KeyMoves | src/app/picker.rs:231-353 | which keys move the cursor, and how far |
| Picker.KeyEdits | src/app/picker.rs:231-385 | which keys change the text by a character or all of one side, and what goes or comes |
| Picker.KeyCuts | src/app/picker.rs:272-342 | which keys erase a word, and that it is exactly one run of separators and one word |
| Picker.EventOf | src/app/picker.rs:225-385 | each action changes the text or moves the cursor iff there is something on its side |
| Picker.TextInput.InsertChar | src/app/picker.rs:163-166 | inserts one character before the cursor |
| Picker.TextInput.EraseCharBack | src/app/picker.rs:168-176 | erases the character before the cursor |
| Picker.TextInput.EraseCharForward | src/app/picker.rs:178-185 | erases the character after the cursor |
| Picker.TextInput.DeleteWordBack | src/app/picker.rs:187-195 | erases back to the word start |
| Picker.TextInput.DeleteWordForward | src/app/picker.rs:197-204 | erases forward to the word end |
| Picker.TextInput.KillToStart | src/app/picker.rs:206-213 | erases all before the cursor |
| Picker.TextInput.KillToEnd | src/app/picker.rs:215-221 | erases all after the cursor |
| Picker.TextInput.SetText | src/app/picker.rs:81-84 | fills the field with a text, the cursor at its end |
| SshForward.SplitOptions | src/ssh_forward.rs:44-91 | the loop separates the options from the forwards of the argument pieces |
| SshForward.SwitchesMean | src/ssh_forward.rs:44-91 | what each kind of token does: a forwarding switch takes its value, a valued one keeps it from being read, anything else stands alone |
| SshForward.LastTokenMeans | src/ssh_forward.rs:49-57 | a forwarding switch without a value stays an option |
| SshForward.KeyFileIsNotAForward | src/ssh_forward.rs:41-43 | a key file named "-Local" is not a forward |
| SshForward.NothingIsLost | src/ssh_forward.rs:41-43 | the pieces, written out, are the arguments |
| SshForward.SplittingOptionsAgain | src/app/hosts.rs:79-89 | splitting the remaining options again returns them with no forwards |
| SshForward.SwitchesRoundTrip | src/ssh_forward.rs:49-57 | the switches of any list of forwards split back into that list |
| SshForward.HostConfig.MigrateForwards | src/app/hosts.rs:81-89 | existing rules stay first; exactly the missing forwards are added, each once, enabled and unnamed |
| SshForward.MigrateIsIdempotent | src/app/hosts.rs:81-89 | migrating twice is migrating once |
| SshForward.Parts | src/ssh_forward.rs:101-122 | the bracket-aware loop computes the recursive split |
| SshForward.JoinRestores | src/ssh_forward.rs:101-122 | joining the parts with ':' restores the spec |
| SshForward.PartsOfJoin | src/ssh_forward.rs:101-122 | any list of closed pieces joined and split comes back |
| SshForward.TcpRoundTrip | src/ssh_forward.rs:144-196 | what the form saves reads back as the same form, a SOCKS rule without its destination |
| SshForward.ThreePartsListenLocally | src/ssh_forward.rs:144-161 | without an address to listen on a rule listens on the local host |
| SshForward.PortForwardsItself | src/ssh_forward.rs:273-282 | a port alone reads as the form from the local host to the local host |
| SshForward.SavedIff | src/ssh_forward.rs:164-196 | exactly which forms can be saved |
| SshForward.SavedWhenPlain | src/ssh_forward.rs:124-196 | the same on characters: port numbers, and addresses without white space, control characters, slashes or brackets |
| SshForward.PortNumbers | src/ssh_forward.rs:124-126 | exactly the numbers from 1 to 65535 are ports, with or without a plus sign |
| SshForward.ValidIff | src/ssh_forward.rs:199-222 | what makes a rule invalid, and which problem is told first |
| SshForward.RemoteZeroRefusedIff | src/ssh_forward.rs:205-222 | a zero remote port is refused iff spelled "0" |
| SshForward.ConflictsSymmetric | src/ssh_forward.rs:225-245 | conflict is symmetric and holds of a rule with itself |
| SshForward.ListenIsTheFormsPort | src/ssh_forward.rs:205-222 | the port validation looks at is the one the form shows |
| SshForward.OverlapIsSharedAddress | src/ssh_forward.rs:232-242 | binds overlap iff there is an address both listen on |
| SshForward.OtherFormsConflictIff | src/ssh_forward.rs:225-245 | rules that are not TCP forms conflict only with themselves |
| SshForward.ClashSeenIff | src/ssh_forward.rs:225-245 | two listeners on one port at overlapping addresses conflict iff the port is spelled the same |
| SshForward.OnePortTwoSpellings | src/ssh_forward.rs:234 | two rules on one port that are not seen to conflict |
| SshForward.ValidateRules | src/ssh_forward.rs:248-265 | accepts iff enabled rules are valid and pairwise conflict-free; else reports the first that is not accepted beside those before it |
| SshForward.AcceptanceIgnoresOrder | src/ssh_forward.rs:248-265 | acceptance depends only on which rules there are |
| SshForward.Import | src/ssh_forward.rs:269-295 | succeeds iff there are arguments, all ports or all forwarding switches, whose rules are accepted; a port becomes an unnamed local forward of that port to itself, a switch its own forward, in order; else says which argument or rule is wrong |

## Left out

- ratatui drawing, its buffer diff, and rows other than the one updated: the diff is the stated contract, and the update theorem is per row.
- Clocks: one reading per call of a bindings operation (`prune_dead` reads the clock more than once within a call).
- The application's handling of a launch outcome: on an error outcome the deferred reports it carries are dropped by the caller; the model stops at the outcome.
- Worker futures, channels and panics of the launch workers: a reply is absent, ready or failed.
- `AgentLogos.collect`'s scan of the screen buffer: any list of wanted logos, at most one per row.
- The byte encoding of graphics commands: a command that fails part-way either took effect or did not.
- A buffering terminal that loses several commands in one failed flush: the commands before the failed one have taken effect. The cache is distrusted after any failure.
- Artwork assets: any 32x32 RGBA image.
- Threads and poisoning of the writer's mutex: critical sections are atomic steps, and spurious wake-ups may happen at any time.
- The start time kept with the active write, and its error text beyond the key.
- Chord parsing and Shift normalisation: chords arrive normalised, tokens that name no key as absent. Continuations, labels and footer hints of the keymap.
- Everything in `keys.rs` but the Normal-mode dispatcher and the activation cancel.
- Popup drawing and hitboxes: mouse dismissal and overflow counts.
- `unicode-width` and grapheme segmentation: widths are additive, and a message glyph is whitespace or starts with a non-whitespace character.
- Offsets in wrapped text count characters or glyphs, not bytes; the UTF-8 editor counts bytes.
- Timestamps and ages of messages, the view's scrolling and hit tests.
- `Picker` itself (filtering and item navigation) around its text field.
- Shell quoting: forwarding arguments arrive as tokens.
- `server_payload.rs`, `announcements.rs`, `dashboard_state.rs`, `operations.rs`, `port_forwards.rs`, configuration merging and I/O: single-branch mappings or managers that are not part of this model.
