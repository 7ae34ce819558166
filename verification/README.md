# Verified models of the lcp command line tool

This project models the parts of the `lcp` command line tool that are algorithms rather than
network or terminal plumbing, and proves what they are for. `dafny verify dfyconfig.toml` checks all of it.

- **Deployment watcher** (`Activities`, `DeployStates`, `DeliveryOrder`, `WatchRuns`, `RetryHeader`, `LiveMessages`,
  `Feedback`). The watcher polls a growing log of activities, sorts each response, and folds it into one
  `(current, visited)` pair for each service. `Feedback` has the watcher as the program has it: objects whose fields and
  messages are updated in place, tied by their contracts to functions on values. About those functions it is proved
  when the delivery order of a response can matter (exactly when two new kinds of one service both arrive latest,
  at the same instant), that polling refines one pass over the last list, what a run visits, prints and ends with,
  that the final error names exactly the services that failed, that the retry counter kept inside the header text
  counts the failures in a row and is cleared without a trace, and that reordering the messages only permutes them.
- **Diagnostics runner** (`Diagnostics`). The launching process, one goroutine for each command, the collector of the
  report and an outside cancellation, as interleaved steps over a counting semaphore and a wait group. For every
  interleaving: the bound on commands that run at once, exactly-once execution, list order in serial mode, progress,
  an exact step count, and a complete report, entry by entry, unless it was started before the launcher was done.
- **Remotes, configuration and hosts** (`Remotes`, `SectionNames`, `ConfigStore`, `Config`, `RemoteCommands`, `Hosts`,
  `HostFlags`). The configuration file is a map of sections with a comment and key/value/comment entries. Saving and
  reading are inverse under an exact condition, the default remote survives every run of remote commands (and a
  rename under an exact condition), the host parser inverts the host printer under an exact condition, and setting
  the endpoint cannot fail once the configuration loads and the flags parse.
- **Smaller algorithms**: the color wheel (`ColorWheel`), the upward search for a directory (`FindResource`), the file of
  environment variables (`EnvFile`), the `--` that `exec` inserts (`ExecArgs`), and the three passes over the help flags
  (`HelpFlags`).

`Sequences` and `Text` hold the operations that the models share: filtering, splitting, trimming, the order of strings.

## Where the code does not do what one might expect

- A final state of a service is not absorbing: an activity of a new kind that is delivered later replaces it
  (`DeployStates.FinalStatesAreNotAbsorbing`). A state is kept exactly when no such activity follows
  (`DeployStates.StateIsKeptIff`), and the service is still final exactly when the last new kind is
  (`DeployStates.IsFinalAfterIff`). Properties over several polls ask for lists that extend each other, or say
  exactly when the order does not matter (`WatchRuns.PollingInAnyOrder`).
- The retry counter is read and written as a 64-bit integer with the errors ignored; the next count is right exactly
  below the largest one (`RetryHeader.UpdateCountsFailures`), and from there on it turns negative
  (`RetryHeader.CounterWraps`).
- A canceled parent context lets the diagnostics report start before any command has run
  (`Diagnostics.CanceledParentReportsEarly`). That takes a collector that does not wait for the launcher: the `diagnostics`
  command itself passes a context that is never canceled and collects after `Run` has returned
  (command/diagnostics/diagnostics.go:44-46), so only another user of the package can see it.
- `remote rename` of the default remote leaves a configuration that does not load (`RemoteCommands.RenameLosesDefault`
  is one), with the exceptions stated in `RemoteCommands.RenameKeepsDefaultIff`.
- A section such as `x remote "a"`, which only partly matches the pattern of a remote section, makes the remote `a`
  appear on every load; it cannot be removed (`ConfigStore.ListAfterSave`, `RemoteCommands.NamedInPartStays`, and
  `RemoteCommands.PartialSectionExample` for that input).
- The list of the names has a name once for each section that gives it, so that simplifying the remotes can come to one
  section twice. The first visit keeps the section of a remote whose fields are all empty, because the check for an empty
  section comes before the empty user name and token are dropped from it; a second one deletes it. A save therefore
  loses the section of a listed remote exactly under the condition of `ConfigStore.EmptyRemoteIsLost`. With the section
  `x remote "a"` a load gives the remote `a` a section and the next save takes it away again
  (`RemoteCommands.EmptySectionComes`, `RemoteCommands.EmptySectionGoes`, `RemoteCommands.PartialSectionEmpties`). The remotes read back are the same.
- The printed host of a project with a hyphen and no service is that of a service, and never parses back
  (`Hosts.HyphenatedProjectIsMisread`).
- A file of variables loses a carriage return that ends a value on a line with a bare line feed, since the two are read
  as one line ending (`EnvFile.LineReads`, `EnvFile.EnvFileRoundTrip`); every other carriage return is kept.
- The directory search dereferences a nil file information when a directory cannot be read for a reason other than its
  absence; the model has the outcome `Panic` for it, `FindResource.WalkPanics` says exactly when it happens, and
  `FindResource.UnreadableStartPanics` and `FindResource.UnreadableParentPanics` are two such trees.

## Model

| member | source | states |
|---|---|---|
| `Activities.SortByCreation` | activities/activities.go:204-206 | the in-place sort leaves the stable sort of what the slice held |
| `Activities.List` | activities/activities.go:187-209 | the decoded activities come back stably sorted |
| `Activities.StableSortedSorts` | activities/activities.go:204-206 | sorted by creation time, and the same activities |
| `Activities.SortCommutesWithFilter` | activities/activities.go:204-206 | selecting any activities before or after the sort gives the same list: stability in full |
| `Activities.TiesKeepOrder` | activities/activities.go:204-206 | activities of one instant keep the order of the response |
| `Activities.StableSortIsUnique` | activities/activities.go:204-206 | a list is the stable sort iff it is sorted and has the activities of each instant in the order of the input, whatever the algorithm |
| `DeployStates.SyncConcat` | deployment/internal/feedback/feedback.go:552-575 | two syncs are one sync of both lists, in states and in printed lines |
| `DeployStates.SyncFollows` | deployment/internal/feedback/feedback.go:552-575 | each service follows its own progress, whatever the others do |
| `DeployStates.FollowProjects` | deployment/internal/feedback/feedback.go:552-575 | projecting the log to one service commutes with the fold |
| `DeployStates.VisitedIsWhatWasSeen` | deployment/internal/feedback/feedback.go:561-573 | visited is the old set and exactly the valid kinds seen |
| `DeployStates.NothingNewChangesNothing` | deployment/internal/feedback/feedback.go:561-573 | without a new valid kind the service stays where it was |
| `DeployStates.CurrentIsTheLastNewKind` | deployment/internal/feedback/feedback.go:561-573 | current is the kind whose first occurrence came last |
| `DeployStates.AbsorbedListIsIgnored` | deployment/internal/feedback/feedback.go:567-569 | a list of visited kinds has no effect |
| `DeployStates.ExtensionsRefineOneShot` | deployment/internal/feedback/feedback.go:525-575 | syncing a list and then an extension of it equals syncing the extension; sync is idempotent |
| `DeployStates.FinalStatesAreNotAbsorbing` | deployment/internal/feedback/feedback.go:567-573 | a concrete late activity takes a service out of a final state |
| `DeployStates.StateIsKeptIff` | deployment/internal/feedback/feedback.go:567-573 | a service keeps its state, final or not, iff no activity of a new valid kind follows for it |
| `DeployStates.IsFinalAfterIff` | deployment/internal/feedback/feedback.go:552-575 | after a log a service is final iff the last new kind is final for it, or nothing is new and it was final |
| `DeployStates.PrintedOnce` | deployment/internal/feedback/feedback.go:477-481 | each service and kind is printed at most once, exactly when it became visited |
| `DeployStates.SyncKeepsOnlyValid` | deployment/internal/feedback/feedback.go:483-523 | current is empty or a visited kind that is valid for the service |
| `DeployStates.ValidKinds` | deployment/internal/feedback/feedback.go:483-523 | which kinds are valid: 4 with only-build or after a build that skipped the deployment, 12 otherwise |
| `DeployStates.ChangesAreBounded` | deployment/internal/feedback/feedback.go:491-523 | over any run a build-only service changes at most 4 times, another at most 12 times |
| `DeliveryOrder.OrderMattersOnlyOnLatestTies` | activities/activities.go:202-208 | every order of a response gives the same states iff no service has two new kinds that both arrive latest |
| `DeliveryOrder.AgreeingTiesAreOrderFree` | activities/activities.go:202-208 | in particular if activities of one service and one instant agree in kind, as when the instants are distinct |
| `DeliveryOrder.AmbiguousDependsOnOrder` | deployment/internal/feedback/feedback.go:552-575 | an ambiguous response has an order that ends in another state |
| `DeliveryOrder.UnambiguousIsOrderFree` | deployment/internal/feedback/feedback.go:552-575 | an unambiguous response ends in one state in every order |
| `RetryHeader.UpdateCountsFailures` | deployment/internal/feedback/feedback.go:577-600 | one more failure turns the header with marker #k into the one with #k+1 iff k is below the largest 64-bit integer |
| `RetryHeader.ClearUndoesFailures` | deployment/internal/feedback/feedback.go:602-605 | clearing restores the base after any number of failures, whatever it ends with |
| `RetryHeader.ClearTakesOneSpace` | deployment/internal/feedback/feedback.go:602-605 | clearing takes the marker with one white space character before it, of any of the five kinds |
| `RetryHeader.ClearKeepsOther` | deployment/internal/feedback/feedback.go:602-605 | and keeps every other character before it |
| `RetryHeader.NoStraddlingMatch` | deployment/internal/feedback/feedback.go:577-605 | no match starts in the base and runs into the marker |
| `RetryHeader.DigitsRoundTrip` | deployment/internal/feedback/feedback.go:596-598 | the printed counter reads back |
| `RetryHeader.CounterIsSeen` | deployment/internal/feedback/feedback.go:674-676 | the guard of the clearing sees every counter |
| `RetryHeader.CounterWraps` | deployment/internal/feedback/feedback.go:596-598 | from the largest 64-bit integer on, one more failure writes the smallest one |
| `WatchRuns.HeaderCountsFailures` | deployment/internal/feedback/feedback.go:655-680 | over any run, of any length, the header is the base, or the base with #k after k failures in a row, as long as no stretch of failures passes the largest 64-bit integer |
| `WatchRuns.PollingRefinesOneShot` | deployment/internal/feedback/feedback.go:643-682 | while the log grows, polling leaves the states of one sync of the last list |
| `WatchRuns.PollingInAnyOrder` | deployment/internal/feedback/feedback.go:643-682 | growing or not, polls that deliver the activities of a list visit what one sync of it visits, and end at the same kind iff the last new kind is the same |
| `WatchRuns.RunIsOneSync` | deployment/internal/feedback/feedback.go:643-682 | any run is one sync of all that was delivered |
| `WatchRuns.RunPrintsOnce` | deployment/internal/feedback/feedback.go:477-481 | a run prints each service and kind at most once |
| `WatchRuns.RunUsesAPrefix` | deployment/internal/feedback/feedback.go:646-681 | once the loop has returned no poll is made |
| `WatchRuns.WatchesUntilFinal` | deployment/internal/feedback/feedback.go:651-680 | the watch goes on exactly until a cancellation, a missing project or an all-final response |
| `WatchRuns.VerdictsAre` | deployment/internal/feedback/feedback.go:643-682 | the three ends of a watch come exactly from a canceled poll, a missing project, and a response that leaves every service through |
| `WatchRuns.OutcomeIsExact` | deployment/internal/feedback/feedback.go:345-379 | the failure lists are disjoint and name exactly the services short of their own success; none iff all succeeded |
| `LiveMessages.Message.PlayText` | waitlivemsg/waitlivemsg.go:46-54 | sets the text and plays: a running counter goes on, a stopped one starts at 0 |
| `LiveMessages.Message.StopText` | waitlivemsg/waitlivemsg.go:56-62 | sets the text and stops |
| `LiveMessages.WaitLiveMsg.AddMessage` | waitlivemsg/waitlivemsg.go:124-129 | appends the message |
| `LiveMessages.WaitLiveMsg.RemoveMessage` | waitlivemsg/waitlivemsg.go:152-163 | drops every occurrence of the message and keeps the rest in order |
| `LiveMessages.ReorderingConserves` | deployment/internal/feedback/feedback.go:282-301 | the passes permute distinct messages iff no known service is repeated in the order |
| `LiveMessages.ListedFollowsOrder` | deployment/internal/feedback/feedback.go:294-300 | the listed messages are those of the known services, in deployment order |
| `Feedback.Watch.CreateServicesActivitiesMap` | deployment/internal/feedback/feedback.go:245-264 | every service starts without progress, with a message on display |
| `Feedback.Watch.UpdateActivitiesStateMessage` | deployment/internal/feedback/feedback.go:412-481 | the message shows the kind and stops exactly on the end of the build for a service that is only built, or else of the deployment; quiet mode prints a new kind |
| `Feedback.Watch.SyncOne` | deployment/internal/feedback/feedback.go:553-573 | one turn is one step of the states and keeps the invariant between states and messages |
| `Feedback.Watch.Sync` | deployment/internal/feedback/feedback.go:552-575 | the states and printed lines are those of the fold |
| `Feedback.Watch.UpdateActivitiesStates` | deployment/internal/feedback/feedback.go:525-550 | sort and sync; the end is reported iff every service is final |
| `Feedback.Watch.IsFinal` | deployment/internal/feedback/feedback.go:767-813 | a service that is only built is through at 2 kinds, any other one at 6 |
| `Feedback.Watch.Turn` | deployment/internal/feedback/feedback.go:646-681 | one turn of the loop in states, header, verdict and printed lines |
| `Feedback.Watch.Wait` | deployment/internal/feedback/feedback.go:643-682 | the whole loop equals the run on values |
| `Feedback.Watch.GetFinalActivitiesStates` | deployment/internal/feedback/feedback.go:746-765 | in any order of the map, each list has the services at its kind, once |
| `Feedback.Watch.SetFinalStates` | deployment/internal/feedback/feedback.go:345-379 | no error iff all lists are empty; otherwise one entry for each listed service, in the order of the lists |
| `Feedback.Watch.MarkBuildOnlyServices` | deployment/internal/feedback/feedback.go:266-280 | the services of builds that skipped the deployment, or all with only-build |
| `Feedback.Watch.ReorderDeployments` | deployment/internal/feedback/feedback.go:282-301 | unlisted messages first, then the listed in deployment order; a permutation iff nothing is repeated |
| `Feedback.Watch.FinishError` | deployment/internal/feedback/feedback.go:711-731 | the header fails, and every message has stopped, with a question mark before what a service that is not final shows |
| `Feedback.Watch.WaitForVerdict` | deployment/internal/feedback/feedback.go:618-641 | states, verdict and printed lines are those of the run; the error of a finished one names exactly the services without success, and the header ends in a tick iff there is none, or else in a cross |
| `Feedback.Watch.WaitDeployment` | deployment/internal/feedback/feedback.go:618-641 | the same from fresh services; it finishes iff a response that the loop asks for leaves each service whose build skipped the deployment at the end of its build, and each other one at the end of its deployment or a failed build; the error names exactly those without the success of their own |
| `Diagnostics.Collect` | diagnostics/diagnostics.go:123-140 | the report is the concatenation of one entry for each command in list order |
| `Diagnostics.Entry` | diagnostics/diagnostics.go:128-137 | an entry starts with the line of the command and all of its output, ends with a line break, and has nothing else |
| `Diagnostics.RunsKeepInv` | diagnostics/diagnostics.go:80-112 | every interleaving keeps the invariant on slots, wait group, outputs and collector |
| `Diagnostics.BoundedConcurrency` | diagnostics/diagnostics.go:87-107 | at most 10 commands run at once, 1 when serial |
| `Diagnostics.RunsOnce` | diagnostics/diagnostics.go:98-107 | each command has begun and written as often as its goroutine got there: at most once, in the end once |
| `Diagnostics.SerialRunsInOrder` | diagnostics/diagnostics.go:90-107 | in serial mode begin and end alternate in list order |
| `Diagnostics.Progress` | diagnostics/diagnostics.go:96-112 | until all is done, some step other than an outside cancellation is enabled |
| `Diagnostics.StepsDecrease` | diagnostics/diagnostics.go:80-140 | every step brings the end one step nearer |
| `Diagnostics.RunsEnd` | diagnostics/diagnostics.go:80-140 | a run has at most 7n + 6 steps, and one that is stuck has done everything |
| `Diagnostics.AddEntryAppends` | diagnostics/diagnostics.go:128-137 | what is appended for a command is its own entry, whatever the report before it |
| `Diagnostics.ReportIsComplete` | diagnostics/diagnostics.go:115-140 | a report that is not started before the launcher is done starts after every output is written and is the entries of all commands in list order, whenever the parent is canceled |
| `Diagnostics.ReportIsWhatItRead` | diagnostics/diagnostics.go:123-140 | in every run, early or not, the report is the entries of the commands with the outputs as they were when it read them |
| `Diagnostics.ReportIsCompleteIff` | diagnostics/diagnostics.go:115-140 | a finished report has an output iff it was written before the report read it |
| `Diagnostics.EarlyNeedsCancellation` | diagnostics/diagnostics.go:115-125 | only a canceled parent lets a report start early |
| `Diagnostics.OutputsAreWritten` | diagnostics/diagnostics.go:71-77 | the output read for a command is the one that its execution wrote |
| `Diagnostics.CanceledParentReportsEarly` | diagnostics/diagnostics.go:115-125 | with an outside cancellation the report may start early and miss outputs |
| `Remotes.List.Keys` | remotes/remotes.go:49-61 | the names in order, however the map is walked |
| `Remotes.List.Set` | remotes/remotes.go:78-88 | sets one entry and no other |
| `Remotes.List.Del` | remotes/remotes.go:90-95 | removes one entry and no other |
| `Text.SortedListIsUnique` | remotes/remotes.go:59 | a set of names has one sorted list |
| `SectionNames.ParseInvertsPrint` | config/config.go:233-262 | the section-name parser inverts the printer iff the name has no line break |
| `SectionNames.ParseIs` | config/config.go:233-242 | a section gives a name iff the leftmost match does: the opening, the name and the last quote of the line |
| `ConfigStore.ListAfterSave` | config/config.go:244-258 | the names listed after a save are those printed by the remotes and those of partly matching sections |
| `ConfigStore.SavedSections` | config/config.go:309-372 | which sections a save keeps, adds and removes |
| `ConfigStore.EmptyRemoteIsLost` | config/config.go:309-335 | a save loses the section of a listed remote iff the name has one line, the entry is empty, the section has no other key, and another section gives the name too |
| `ConfigStore.ForeignSectionsSurvive` | config/config.go:338-346 | other sections keep their contents |
| `ConfigStore.ForeignKeysSurvive` | config/config.go:348-369 | exactly the other keys in the section of a listed remote survive, as they were |
| `ConfigStore.ConfigRoundTrip` | config/config.go:268-372 | reading after saving returns the same remotes iff names have one line, fields are trimmed and no partly matching section names an unlisted remote |
| `ConfigStore.LoadInvertsSave` | config/config.go:62-146 | loading after saving restores all parameters iff, besides, a default is set and the cloud remote has an address |
| `ConfigStore.DefaultRoundTrip` | config/config.go:126-189 | the default remote reads back, an empty one as the cloud remote |
| `ConfigStore.SavedFields` | config/config.go:348-369 | a saved file has each field of a remote under its own key, with its comment, and the default under its own |
| `Text.TrimSpaceIs` | config/config.go:280-288 | trimming takes white space off both ends, and all of it |
| `Text.SpacesAre` | config/config.go:280-288 | the white space that is trimmed, by code point |
| `Text.ToLowerIs` | flagsfromhost/flagsfromhost.go:119-122 | lowering moves every Latin capital to its small letter, and nothing else |
| `ConfigStore.LoadsSection` | config/config.go:268-295 | a remote with a section of its own is loaded from it, but for a cloud remote without an address |
| `ConfigStore.ReadFields` | config/config.go:272-289 | each field is read from its own key, trimmed |
| `ConfigStore.LoadsDefault` | config/config.go:62-109 | without a file the standard cloud remote is the default; otherwise the main section says it |
| `ConfigStore.ReadAfterSave` | config/config.go:268-372 | what is read after a save: the remotes, trimmed, and an empty entry for every other name given in part |
| `Config.Config.ReadRemotes` | config/config.go:268-295 | in any order of the names, the entries read and the sections created |
| `Config.Config.ListNames` | config/config.go:244-258 | the names in the order of the sections, one for each section that gives it |
| `Config.Config.UpdateRemotes` | config/config.go:338-372 | dropping, writing and simplifying in loops over names that may repeat gives the saved file |
| `Config.Config.SimplifyRemotes` | config/config.go:309-335 | visiting each name as often as sections give it drops the empty fields, and deletes what is then empty on the first or a second visit |
| `Config.VisitsSimplify` | config/config.go:309-335 | the visits end in the same file whatever the order of the sections |
| `Config.NamesAreCounted` | config/config.go:244-258 | a name is listed, or listed twice, iff one section, or two, give it |
| `Config.Config.SimplifyOne` | config/config.go:309-335 | empty fields are dropped, and the section when only those were left |
| `Config.Config.Load` | config/config.go:62-124 | the loaded parameters; success iff the default remote is listed |
| `Config.Config.Save` | config/config.go:126-146 | the saved file |
| `Config.Config.SetRun` | command/remote/remote.go:91-108 | the entry is replaced by one with the address only, and saved |
| `Config.Config.RenameRun` | command/remote/remote.go:110-132 | the entry moves to a free name, and is saved; otherwise nothing changes |
| `Config.Config.RemoveRun` | command/remote/remote.go:134-159 | the entry goes and a default that pointed to it is reset; otherwise nothing changes |
| `Config.Config.SetURLRun` | command/remote/remote.go:179-199 | only the address changes |
| `Config.Config.SaveDefaultRemote` | command/remote/default.go:64-80 | the default becomes a listed name; otherwise nothing changes |
| `RemoteCommands.DefaultStaysValid` | command/remote/remote.go:91-199 | from a configuration that loads, or none at all, after every sequence of set, set-url, rm and default the configuration loads with the default and the cloud remote present |
| `RemoteCommands.RenameKeepsDefaultIff` | command/remote/remote.go:110-132 | a rename keeps this iff the old name was not the default, or was the cloud remote, or some section still names it |
| `RemoteCommands.RenameLosesDefault` | command/remote/remote.go:110-132 | a concrete configuration that does not load after its default remote is renamed |
| `RemoteCommands.NamedInPartStays` | command/remote/remote.go:134-159 | removing a remote that a partly matching section names does not remove it |
| `RemoteCommands.PartialSectionExample` | config/config.go:233-242 | a concrete section that only partly matches and names a remote |
| `RemoteCommands.EmptySectionComes` | config/config.go:268-295 | loading gives a remote that is only named in part an empty entry and a section |
| `RemoteCommands.PartialSectionEmpties` | config/config.go:309-335 | with that concrete section, loading and saving without a change loses the section of the remote |
| `RemoteCommands.EmptySectionGoes` | config/config.go:309-335 | a save deletes that section, and the remote stays listed |
| `RemoteCommands.AcceptedAfterSave` | config/config.go:111-124 | a saved configuration loads iff its default is the cloud remote or is still listed |
| `RemoteCommands.NextLoadSeesTheChange` | command/remote/remote.go:91-199 | the next process loads exactly the parameters a command left iff they can be read back, there is a default, and the cloud remote has an address |
| `RemoteCommands.NextLoadCompletesTheChange` | command/remote/remote.go:91-199 | what can be read back is loaded with the cloud remote and a default put in |
| `RemoteCommands.SetIsSeen` | command/remote/remote.go:91-108 | after a set the next process loads the address alone for that remote, and everything else as before |
| `RemoteCommands.SetURLIsSeen` | command/remote/remote.go:179-199 | after a set-url it loads the new address, and everything else as before |
| `RemoteCommands.RemoveIsSeen` | command/remote/remote.go:134-159 | after an rm the remote and its section are gone, the default is reset if it was that remote, and everything else is as before; the cloud remote comes back in its standard form, and a name given in part comes back empty |
| `RemoteCommands.DefaultIsSeen` | command/remote/default.go:64-80 | after a default command that remote is the default, and everything else is as before |
| `RemoteCommands.RenameIsSeen` | command/remote/remote.go:110-132 | after a rename the entry is under the new name alone, with the exceptions of an rm |
| `RemoteCommands.RefusedChangesNothing` | command/remote/remote.go:110-199 | a command about a remote that is not listed, or a rename to one that is, leaves the file alone |
| `RemoteCommands.CommandsAreUndone` | command/remote/remote.go:110-199 | renaming back and setting the address back undo |
| `Hosts.FindRemotes` | flagsfromhost/flagsfromhost.go:331-349 | the names with the address, in order |
| `Hosts.MatchingIs` | flagsfromhost/flagsfromhost.go:331-349 | an address is that of a service with or without one of the two schemes |
| `Text.LessIs` | remotes/remotes.go:59 | names are ordered by their first difference, a prefix first |
| `Hosts.FoundIsListed` | flagsfromhost/flagsfromhost.go:331-344 | exactly the listed remotes whose service is the address, with or without a scheme, each once |
| `Hosts.FoundOne` | flagsfromhost/flagsfromhost.go:311-329 | one remote is found iff it alone matches |
| `Hosts.HostRoundTrip` | flagsfromhost/flagsfromhost.go:194-309 | for all names, domains and lists, the printed host parses back to service, project and remote, marked as from the host, iff the names are separable, the remote alone has the domain and none has the whole host (or there are no names and it alone has the whole) |
| `Hosts.NamesOfHost` | flagsfromhost/flagsfromhost.go:234-277 | taking the host apart at the first dot and the first hyphen gives the printed names iff they are in lower case without dots, the service has no hyphen, and neither has a project without service |
| `Hosts.HyphenatedProjectIsMisread` | cmdflagsfromhost/cmdflagsfromhost.go:146-154 | a project with a hyphen and no service never parses back; its host is that of a service of a shorter project |
| `Hosts.ShortHostParses` | flagsfromhost/flagsfromhost.go:249-277 | a host without a dot gives a service and a project, and the remote of the flag |
| `Hosts.FlagsParse` | flagsfromhost/flagsfromhost.go:118-192 | without a host the flags come back in lower case, and fail iff their remote is not listed |
| `Hosts.HostIsAlone` | flagsfromhost/flagsfromhost.go:173-178 | a host is refused as a mix iff a project or a service comes with it |
| `Hosts.HostConflicts` | flagsfromhost/flagsfromhost.go:194-232 | a host that several remotes have is ambiguous, and one that a single remote has does not go with a remote flag |
| `Hosts.UnknownHostFails` | flagsfromhost/flagsfromhost.go:279-309 | a host in an unknown domain is not found, and the error has the whole host |
| `Hosts.HostRemoteIsKept` | flagsfromhost/flagsfromhost.go:145-171 | the defaults change nothing but the remote, and keep one that comes from the host |
| `Hosts.PrintedHostIsChosen` | flagsfromhost/flagsfromhost.go:145-171 | a printed host that parses back leads to its own remote, service and project, whatever the default |
| `Hosts.ChosenRemoteIsListed` | flagsfromhost/flagsfromhost.go:118-232 | for every host and flags that parse, the remote finally chosen is listed |
| `Hosts.FlagThenDefault` | flagsfromhost/flagsfromhost.go:148-170 | without a remote from the host the flag decides, and then the default |
| `HostFlags.Context.SetEndpoint` | config/context.go:75-94 | succeeds iff the remote is listed, and then takes its fields, server and domain; otherwise nothing changes |
| `HostFlags.Context.ServerIs` | remotes/remotes.go:23-42 | a local address is its own server, any other one is reached through its API |
| `HostFlags.Context.DomainIs` | config/context.go:115-129 | the domain is the address without the API part and the port |
| `HostFlags.SetupHost.TryParseFlags` | cmdflagsfromhost/cmdflagsfromhost.go:197-208 | the flags come back without an error iff they parse, or only lack the project of a service and the command tolerates that |
| `HostFlags.SetupHost.LoadValues` | cmdflagsfromhost/cmdflagsfromhost.go:376-408 | which of the refusals up to the endpoint comes when, and the endpoint of the chosen remote |
| `HostFlags.SetupHost.Process` | cmdflagsfromhost/cmdflagsfromhost.go:296-308 | from any stored configuration and flags, setting the endpoint never fails; the outcome is exactly a configuration that does not load, an error of the parse that is not tolerated, or whether the command allows the flags; a printed host that parses back leads to its own remote, service and project |
| `ColorWheel.Wheel.Get` | colorwheel/colorwheel.go:20-34 | an identifier keeps its color; the j-th distinct one has slot j modulo the palette |
| `ColorWheel.Wheel.NextColor` | colorwheel/colorwheel.go:36-42 | next is the number of distinct identifiers modulo the palette |
| `ColorWheel.SeenAreDistinct` | colorwheel/colorwheel.go:26-30 | the identifiers asked for are dealt a slot once each |
| `ColorWheel.SlotsAreKept` | colorwheel/colorwheel.go:26-28 | later requests move no identifier to another slot |
| `ColorWheel.UsageIsBalanced` | colorwheel/colorwheel.go:20-42 | after any requests, the uses of any two slots by distinct identifiers differ by at most one |
| `FindResource.WalkToRootDirectory` | findresource/findresource.go:43-86 | the loop ends, with the outcome of the recursive walk |
| `FindResource.WalkFindsNearest` | findresource/findresource.go:61-84 | in every tree a directory is found iff it is the nearest with the file, below the first limit, with readable directories that lack it on the way |
| `FindResource.WalkReachesRoot` | findresource/findresource.go:61-84 | the root of the tree is reported iff no limit is met and every directory up to it lacks the file |
| `FindResource.WalkFindsNothing` | findresource/findresource.go:54-79 | nothing is found iff the walk gets to what is no directory, or to a last directory that lacks the file |
| `FindResource.WalkFails` | findresource/findresource.go:80-81 | the walk fails iff it gets to a directory where the file cannot be checked |
| `FindResource.WalkPanics` | findresource/findresource.go:52-56 | the walk panics iff it gets to a directory that cannot be read for another reason than its absence |
| `FindResource.UnreadableStartPanics` | findresource/findresource.go:52-56 | it panics on a concrete tree whose start cannot be read |
| `FindResource.UnreadableParentPanics` | findresource/findresource.go:52-56 | and on one where a directory above it cannot |
| `EnvFile.FilterEmptyEnvValues` | command/env-var/internal/commands/commands.go:251-261 | the arguments that are not empty, in order |
| `EnvFile.SplitEnvKeyValueParameters` | command/env-var/internal/commands/commands.go:164-188 | pairs split at the first equals sign; fails iff some argument has none, two such arguments being a name and a value |
| `EnvFile.GetAddEnvs` | command/env-var/internal/commands/commands.go:142-162 | nothing to add, a name and a value, all pairs, or an argument that is no pair |
| `EnvFile.ReadsContents` | command/env-var/set/set.go:65-76 | whatever the line endings, reading gives back the lines iff none has a line feed inside, nor a carriage return right before a bare line feed |
| `EnvFile.EnvFileRoundTrip` | command/env-var/set/set.go:65-76 | for all variables, a printed file reads back as the same variables in order iff each is on one line in that sense and no name has an equals sign; the two-argument case never fires |
| `EnvFile.AddFromFile` | command/env-var/set/set.go:78-100 | the variables added are those that the text was printed from, under exactly that condition |
| `ExecArgs.Scan` | command/exec/args/args.go:23-44 | stops on the first positional argument, if there is one without an earlier separator |
| `ExecArgs.FirstPositionalIs` | command/exec/args/args.go:23-44 | the first positional argument has no dash and an even number of string flags right before it; before it there are no separator, only flags and arguments after an odd number of string flags |
| `ExecArgs.GetPosition` | command/exec/args/args.go:57-90 | the position after the command name, iff that is the first positional argument |
| `ExecArgs.MaybeRewrite` | command/exec/args/args.go:11-55 | one separator right before the first positional argument after the command name, iff there is one; taking it out restores the arguments |
| `ExecArgs.RewritesOnce` | command/exec/args/args.go:11-55 | a second pass never rewrites |
| `ExecArgs.OnlyFlagsBetween` | command/exec/args/args.go:23-40 | between the command name and the separator there are only flags and their values |
| `HelpFlags.UsagePrinter.UseFlagsHelpDescriptionFiltered` | command/internal/template/template.go:172-185 | prints and marks the unused flags of the listed names |
| `HelpFlags.UsagePrinter.UseFlagsHelpDescription` | command/internal/template/template.go:187-198 | prints and marks all that is left |
| `HelpFlags.UsagePrinter.PrintFlags` | command/internal/template/template.go:147-170 | prints the descriptions of the flags of begin, middle and end in that order, and leaves every flag marked |
| `HelpFlags.TakenIs` | command/internal/template/template.go:172-185 | a pass takes exactly the unused flags with a listed name, once, in list order |
| `HelpFlags.PassesShareOut` | command/internal/template/template.go:149-169 | the three passes print every flag exactly once; the first list wins, the middle keeps the original order |

## Left out

- The HTTP client, JSON decoding, the rate limiter, the clock, signals and colors: a poll is an arbitrary outcome, and
  the rendered line of a service is a parameter.
- The background loop that draws the live messages, with its locks: messages change only by the calls that are modelled.
- The other messages of the watcher (step message, package size, upload), the text of the errors, and the signs that are
  used instead of the tick and the cross on Windows.
- The text format of the configuration file (trimming by its parser, comment prefixes, quoting), the `%(name)s`
  references in values, and the inheritance of keys by sections with a dotted name: the file is the map of its sections,
  walked in any order, and a save followed by a load is the identity on it.
- The parameters other than the default remote and the remotes, the banner comment, and `simplify` for the main section.
- The messages that the remote commands print, and the interactive choice of a default remote.
- Lower case of letters beyond ASCII: `ToLower` lowers the Latin letters only.
- HostFlags.SetupHost.LoadValues: covers only the part that chooses the remote; the project and service of the working
  directory, instances, prompts and the required fields are not modelled, because they depend on files, the server and a
  terminal.
- `--environment`, and splitting a host from its port, which is a parameter of the context.
- The prompt of `env-var`, and the calls that send the variables to the server.
- The collection of the string flags of a command for `exec`: they are a parameter. The rewrite may also write into the
  backing array of its argument; the model covers the arguments returned.
- The preparation of the flag descriptions of the help page.
- The check that the delimiter of the directory search is a directory, relative paths, and Windows paths.
- What a diagnostics command does besides writing its output once, and its timeout.
- Credentials, log in, the shell, logs, listings, updates and releases.
