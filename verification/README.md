# Verified models of the production test framework

This project models the algorithms and protocols inside a framework that runs long tests against
switches, GPU servers and model deployments, and proves what they promise. Each module follows one
part of the framework:

| module | what it models |
|---|---|
| `CommandWorkload` | a workload that runs one command in a background thread: start, the worker, the done-callback and stop, each statement a step, in every interleaving |
| `PortName` | parsing vendors' interface names, numbering them as switch ports, and detecting breakouts |
| `EnvVars`, `EnvPrecedence` | selecting the environment variables a set of targets needs, with a cache per directory, and which declaration of each |
| `GpuEconomics` | the table of GPU figures, its names and aliases, and its in-place update |
| `NvueSwitch` | removing a VLAN through a changeset that is staged, applied and polled, against a switch that may fail at every request |
| `VllmWorkers`, `VllmLifecycle` | GPUs and ports for a deployment's workers, and the life of its containers when any docker command may fail |
| `ModelFit`, `RopeOverride` | whether a model fits its GPUs, and the repairs offered for a RoPE override, down to the lines printed |
| `DisaggProxy` | completions that go through a prefill worker and then a decode worker, interleaved on one event loop |
| `TimedLoops`, `FittedRise` | running a command with a timeout, polling a condition, and the trend line through samples |
| `Grafana` | putting variables into queries |
| `Formatting` | Markdown tables, and reading them back |

`Common`, `Sorting` and `Text` hold what the others share. Code that updates objects is modelled by
classes whose methods are proved against functions on values; the lemmas about those functions carry
the properties over every run. What the framework gets from outside (docker, a switch, a clock, a
thread's timing) is any outcome at all, within what the comments state. Times and other floats are
reals, and texts are ASCII.

Places where the code does not do what a reader might assume are stated as lemmas too: a stopped
workload can still turn COMPLETED (`CommandWorkload.OldRunOverwrites`, and exactly when in
`CommandWorkload.StoppedStaysIffAllHarmless`), an old run can pass its value off as a restarted
one's (exactly when in `CommandWorkload.RestartIsSafeIffNoneMayComplete`), ERROR can show before the
failure does (`CommandWorkload.ErrorCanShowNothing`), the advice to lower max_model_len can be in
vain (`ModelFit.LoweringHelpsIff`), port IDs can depend on the order names are reported in
(`PortName.OneMappingIffNoTies`), a declaration can be missed by a path used before it
(`EnvVars.AgreesExactlyWithoutStaleUses`, `EnvVars.LateDeclarationIsMissed`), HTTP ports collide
past 100 prefill workers (`VllmWorkers.PortsDistinct`), interpolating twice is not interpolating
once (`Grafana.SecondPassCanReplace`), nor is applying a fetch of GPU figures twice
(`GpuEconomics.OverlapUpdatesTwice`), normalising a GPU's name twice can drop more of it
(`GpuEconomics.NormalisingTwice`), a Markdown rule is longer than its table when a column is empty
(`Formatting.LinesAreEqual`), and is no delimiter for a column one character wide
(`Formatting.RuleReadsBack`).

## Model

| member | source | states |
|---|---|---|
| `CommandWorkload.RunningHasCallbackAhead` | src/production_test_framework/workload/command_workload.py:71-159 | in every interleaving of start, stop, worker and callbacks, restarts over an old run included, the status is RUNNING only while the latest started run's callback has its status write ahead of it |
| `CommandWorkload.WaiterIsReleased` | src/production_test_framework/workload/workload.py:80-86 | after any history, if nobody calls start or stop again only boundedly many events follow, and when none can, no call is in progress and the status is not RUNNING |
| `CommandWorkload.ProgressUsesWork` | src/production_test_framework/workload/command_workload.py:71-159 | every event of a running thread uses up some of a bounded amount of work |
| `CommandWorkload.SomethingCanMove` | src/production_test_framework/workload/command_workload.py:71-159 | while RUNNING shows or a call is in progress, some thread can move |
| `CommandWorkload.PoolIsNotExceeded` | src/production_test_framework/workload/workload.py:35-55 | in every interleaving no more commands are under way than the pool has threads |
| `CommandWorkload.QueuedWaitsForThread` | src/production_test_framework/workload/workload.py:35-55 | a queued run can begin exactly when fewer are under way and none was queued before it |
| `CommandWorkload.CompletedShowsOwnResult` | src/production_test_framework/workload/command_workload.py:87-149 | when each start follows the earlier callbacks and the clock never goes back, a controller that sees COMPLETED sees the parsed output and raw result of the latest run's own successful command, and an end not before the start, whatever stop calls raced |
| `CommandWorkload.ErrorShowsOwnFailure` | src/production_test_framework/workload/command_workload.py:87-149 | under the same conditions a controller that sees ERROR sees the latest run's raw result, and as result either nothing yet or why that run failed: the description of its failed command, or what parsing its output raised |
| `CommandWorkload.ErrorCanShowNothing` | src/production_test_framework/workload/command_workload.py:141-145 | ERROR can show before the failure does, as the callback writes the status first |
| `CommandWorkload.CancelledIsDelivered` | src/production_test_framework/workload/command_workload.py:151-159 | in every interleaving, a run that stop() takes out of the queue has had its callback run to the end, on no command result, before stop() goes on |
| `CommandWorkload.OldRunOverwrites` | src/production_test_framework/workload/command_workload.py:128-159 | a run that outlived its stop turns STOPPED into COMPLETED, and after a restart shows its own value as COMPLETED while the new run is still queued |
| `CommandWorkload.OldRunCanOutliveStop` | src/production_test_framework/workload/command_workload.py:87-103 | such a run exists: its command succeeds before stop sets the cancel flag |
| `CommandWorkload.RestartIsSafeIffNoneMayComplete` | src/production_test_framework/workload/command_workload.py:71-159 | from a start until the next one, a controller between calls sees COMPLETED only once the new run has written it, whatever happens, exactly when at the call every earlier run has returned and none has a success that parses still to be decided or a value still to be written |
| `CommandWorkload.RestartIsSafeAfterAnyHistory` | src/production_test_framework/workload/command_workload.py:71-159 | the same for a start in every state that calls, worker and callbacks lead to from the beginning |
| `CommandWorkload.StoppedStaysIffAllHarmless` | src/production_test_framework/workload/command_workload.py:87-159 | between calls, STOPPED stays until the next start, whatever happens, exactly when every run has made its status write, ends as cancelled, or has a failed command and finds the cancel flag set |
| `CommandWorkload.StoppedStaysAfterAnyHistory` | src/production_test_framework/workload/command_workload.py:71-159 | the same in every state that calls, worker and callbacks lead to from the start |
| `CommandWorkload.StartUninterrupted` | src/production_test_framework/workload/command_workload.py:71-85 | the steps of a start nothing interrupts lead where the method leads |
| `CommandWorkload.CallbackUninterrupted` | src/production_test_framework/workload/command_workload.py:128-149 | so do the writes of a callback nothing interrupts, for each way a run can end |
| `CommandWorkload.StopUninterrupted` | src/production_test_framework/workload/command_workload.py:151-159 | so do the steps of a stop, including the callback a cancelled future runs inside it |
| `CommandWorkload.Workload.Start` | src/production_test_framework/workload/command_workload.py:71-85 | refuses while RUNNING and changes nothing; else clears the cancel flag, resets the shared fields and submits a run with its callback |
| `CommandWorkload.Workload.OnCommandDone` | src/production_test_framework/workload/command_workload.py:128-149 | the fields each kind of outcome leaves |
| `CommandWorkload.Workload.Stop` | src/production_test_framework/workload/command_workload.py:151-159 | sets the flag, cancels a queued run (whose callback runs first), and leaves STOPPED |
| `PortName.PlainReadsBack` | src/production_test_framework/switch/portname.py:90-108 | every prefix, cage and subport written in either notation, with white space round it, parses to exactly those parts |
| `PortName.CiscoReadsBack` | src/production_test_framework/switch/portname.py:111-130 | so does every NX-OS slot, port and subport; the abbreviated prefix gives the full one |
| `Text.SpacesAre` | src/production_test_framework/switch/portname.py:98-98 | the white space that may stand round a name is what strip() removes: blanks, tabs, line ends and the ASCII separators |
| `PortName.ParsesExactlyPlainNames` | src/production_test_framework/switch/portname.py:55-108 | parse accepts exactly letters, digits and possibly a separator with more digits, leading zeros included, and gives those parts |
| `PortName.ParsesExactlyCiscoNames` | src/production_test_framework/switch/portname.py:56-130 | parse_cisco accepts exactly Ethernet or Eth with slot, port and possibly subport, and gives those parts |
| `PortName.RecognisedSpec` | src/production_test_framework/switch/portname.py:165-169 | the names kept are those that parse from some reported spelling, each raw name once |
| `PortName.OrderedSpec` | src/production_test_framework/switch/portname.py:173-173 | ordering keeps exactly the recognised names, each once, by sort key (which `PortName.IdsFollowParts` spells out) |
| `PortName.PortNameResolver.Learn` | src/production_test_framework/switch/portname.py:153-183 | returns how many names were mapped; a call that maps nothing changes nothing; the state after any series of calls is the specification's |
| `PortName.PortNameResolver.PortId` | src/production_test_framework/switch/portname.py:185-187 | an ID exactly for the mapped names, and the name map gives the name back |
| `PortName.PortNameResolver.Name` | src/production_test_framework/switch/portname.py:189-191 | the name at that place of the order, for IDs 1 to N only |
| `PortName.NumberNames` | src/production_test_framework/switch/portname.py:174-175 | the two dictionaries are inverse to each other and number the names from 1 |
| `PortName.CountCages` | src/production_test_framework/switch/portname.py:177-181 | breakout exactly when some cage holds more than one of the names |
| `PortName.LearnedMapping` | src/production_test_framework/switch/portname.py:153-191 | after any learn calls the maps are inverse bijections between 1..N and the distinct names recognised by the last call that recognised any, in sort-key order |
| `PortName.IdsFollowParts` | src/production_test_framework/switch/portname.py:79-87 | of two mapped names the one whose prefix, slot, cage or subport, compared in that order, is less has the smaller ID; only names with all four equal can come in either order |
| `Text.StrLeqSpec` | src/production_test_framework/switch/portname.py:87-87 | prefixes are compared as Python compares texts: by the first character that differs, a text before those that extend it |
| `PortName.OrderAndRepetitionDoNotMatter` | src/production_test_framework/switch/portname.py:165-175 | without ties in the key the mapping depends only on the set of names |
| `Sorting.SortStable` | src/production_test_framework/switch/portname.py:173-173 | sorting keeps elements that tie in their order |
| `PortName.TiesKeepReportOrder` | src/production_test_framework/switch/portname.py:165-175 | names that tie in the key get their IDs in the order they were first reported in |
| `PortName.TiesFollowReportOrder` | src/production_test_framework/switch/portname.py:165-175 | whatever else is reported, two tying names put first in either order get their IDs in that order, so the mappings differ |
| `PortName.OneMappingIffNoTies` | src/production_test_framework/switch/portname.py:165-175 | all reports of the same names give one mapping exactly when no two recognised names tie |
| `PortName.SwpIsCageOne` | src/production_test_framework/switch/portname.py:55-55 | such ties exist: swp1 and swp01 have the same key |
| `PortName.PortIdFormula` | src/production_test_framework/switch/portname.py:173-175 | an ID is the number of cages before its own, plus the interfaces beyond the first those cages hold, plus its place in its own cage |
| `PortName.NoBreakoutIffIdsAreRanks` | src/production_test_framework/switch/portname.py:198-209 | no breakout exactly when every ID is its cage's rank |
| `PortName.WholeCagesKeepTheirNumbers` | src/production_test_framework/switch/portname.py:198-209 | with one prefix and slot, cages exactly 1..N and no breakout, the ID is the cage number |
| `PortName.MappedIds` | src/production_test_framework/switch/portname.py:173-187 | the same formula for the ID a resolver holds for a name, after any learn calls |
| `PortName.BreakoutShiftsIds` | src/production_test_framework/switch/portname.py:177-209 | has_breakout is false exactly when every ID the resolver holds is its cage's rank |
| `PortName.CageNumbersAreIds` | src/production_test_framework/switch/portname.py:173-209 | with one prefix and slot, cages exactly 1..N and no breakout, every ID the resolver holds is its cage number |
| `EnvVars.EnvironmentCheck.AddEntries` | src/production_test_framework/env_vars.py:196-198 | declare: what the object caches and has selected stays what the history of calls says |
| `EnvVars.EnvironmentCheck.Record` | src/production_test_framework/env_vars.py:200-214 | use: the selection stays the one in which every use reads its directory's declarations as of its first use |
| `EnvVars.CachedIsRecomputed` | src/production_test_framework/env_vars.py:200-244 | while no use finds its path cached from before a declaration that is still unread, the object has selected exactly what recomputing the entries on every use would, values included |
| `EnvVars.FrozenIsRecomputed` | src/production_test_framework/env_vars.py:200-244 | the same for any history, between the two ways to read declarations |
| `EnvVars.DeclaringFirstIsEnough` | src/production_test_framework/env_vars.py:196-198 | declaring each directory before its first use, as declare() asks, leaves no such use |
| `EnvVars.AgreesExactlyWithoutStaleUses` | src/production_test_framework/env_vars.py:196-214 | a series of calls agrees with recomputing after every one of them, whatever it declares, exactly when it has no such use, for any file and any spellings of paths |
| `EnvVars.StaleDisagrees` | src/production_test_framework/env_vars.py:204-214 | wherever there is one, some declarations in the same calls make the object miss a variable right there |
| `EnvVars.LateDeclarationIsMissed` | src/production_test_framework/env_vars.py:205-211 | the smallest example: without file declarations, a path used again right after a declaration of it misses the declaration |
| `EnvVars.ReadEntries` | src/production_test_framework/env_vars.py:206-211 | the first use's loop selects the plain declarations in order and keeps the scoped ones |
| `EnvVars.SelectMatching` | src/production_test_framework/env_vars.py:212-214 | every use's loop selects the scoped declarations that share a name with it |
| `EnvVars.SelectionSpec` | src/production_test_framework/env_vars.py:196-244 | where each directory is declared before it is used, a name is selected exactly when some use has a declaration of it in the file for its directory or one above, or in a call for just its directory, and shares a name with it where it is scoped; each value is one of those, and is required exactly when one of them is |
| `EnvVars.DeduplicateSpec` | src/production_test_framework/env_vars.py:54-56 | one declaration of each name is left, the last |
| `EnvVars.MissingRequiredSpec` | src/production_test_framework/env_vars.py:59-62 | lists in name order, once each, exactly the names whose last declaration is required and that are unset |
| `EnvVars.MissingSpec` | src/production_test_framework/env_vars.py:221-223 | missing() lists exactly the selected names that are required and unset |
| `EnvVars.EnvironmentCheck.MissingVariables` | src/production_test_framework/env_vars.py:221-223 | the object lists some of what it has selected: in name order, once each, exactly the required names that are unset |
| `EnvVars.SelectsWhatApplies` | src/production_test_framework/env_vars.py:196-244 | so the names, values and required flags the object has selected are those of the declarations that apply |
| `EnvPrecedence.FirstDeclarationCounts` | src/production_test_framework/env_vars.py:200-247 | of several declarations of a name that apply, the one selected is the first read, or the first required one: earlier uses first, what always applies before what is scoped, the nearest directory of the file first, and calls last |
| `EnvVars.OrderOfUsesDoesNotMatter` | src/production_test_framework/env_vars.py:200-223 | the selected names, their required flags and missing() depend on the set of uses, not their order |
| `EnvVars.ChecksAgree` | src/production_test_framework/env_vars.py:196-223 | two objects told the same declarations and then the same uses, in any order, select the same names with the same flags and miss the same |
| `GpuEconomics.KeysAccepted` | src/production_test_framework/agentx/gpu_economics.py:98-107 | a key passes the loader's check exactly when it is lower-case letters and digits with single dashes between them and does not start with a vendor |
| `GpuEconomics.SlugExactly` | src/production_test_framework/agentx/gpu_economics.py:98-99 | the slug of a text is exactly the name of lower-case letters, digits and single dashes that it spells, with letters in either case, any run of other characters for a dash, and any at either end |
| `GpuEconomics.NormaliseExactly` | src/production_test_framework/agentx/gpu_economics.py:98-100 | a text normalises to exactly the name it spells, alone or with a vendor in front |
| `GpuEconomics.NormalisingTwice` | src/production_test_framework/agentx/gpu_economics.py:98-100 | normalising again changes a name exactly when, in lower case and with single dashes, it starts with a vendor twice |
| `GpuEconomics.VendorTwice` | src/production_test_framework/agentx/gpu_economics.py:98-100 | such names exist, one for every canonical rest |
| `GpuEconomics.CheckNames` | src/production_test_framework/agentx/gpu_economics.py:158-163 | the loader refuses a table exactly when some key or alias comes twice |
| `GpuEconomics.DistinctNamesOneChip` | src/production_test_framework/agentx/gpu_economics.py:143-164 | in a table it accepts, every key and alias answers for one chip |
| `GpuEconomics.UpdateKeepsNames` | src/production_test_framework/agentx/gpu_economics.py:264-296 | after any update with rows shaped as the fetcher builds them, every key and alias still names exactly one chip |
| `GpuEconomics.LookupIgnoresOrder` | src/production_test_framework/agentx/gpu_economics.py:197-205 | while each name answers for one chip, lookup finds the same one in any order of the table |
| `GpuEconomics.LookupFindsSpellings` | src/production_test_framework/agentx/gpu_economics.py:197-205 | and finds a chip for exactly the texts that spell its key or one of its aliases so |
| `GpuEconomics.UpdateAsIfAddedFirst` | src/production_test_framework/agentx/gpu_economics.py:273-296 | with disjoint fetched names, an update is the update of a table that had the new chips from the start |
| `GpuEconomics.FoldedSpec` | src/production_test_framework/agentx/gpu_economics.py:280-294 | what repeated updates leave of a chip: the last TDP and costs; the last published power, else an estimate from the last TDP if it was one, else what it was |
| `GpuEconomics.UpdatingTwiceIsUpdatingOnce` | src/production_test_framework/agentx/gpu_economics.py:264-296 | with disjoint fetched names, applying the same fetch twice is applying it once |
| `GpuEconomics.OverlapUpdatesTwice` | src/production_test_framework/agentx/gpu_economics.py:264-296 | with shared names a second application can change the table: when a chip with published power is a row's by label, and a chip with estimated power, not in the table, has the first one's key as its label, the second application sends the first one's power to the added row |
| `GpuEconomics.SomeChipsOverlap` | src/production_test_framework/agentx/gpu_economics.py:264-296 | such chips exist, in a table whose names are unique |
| `GpuEconomics.GpuTable.Update` | src/production_test_framework/agentx/gpu_economics.py:264-296 | the table after the loop, the keys it reports, and that names stay unique |
| `NvueSwitch.DeletedElsewhere` | src/production_test_framework/switch/nvidia/nvidia_cumulus_switch.py:215-225 | a staged deletion changes no value off its path |
| `NvueSwitch.WithoutVlanSpec` | src/production_test_framework/switch/nvidia/nvidia_cumulus_switch.py:205-227 | in the configuration delete_vlan aims at, no interface and no domain entry refers to the VLAN, and every other membership and value is unchanged |
| `NvueSwitch.MembershipById` | src/production_test_framework/switch/nvidia/nvidia_cumulus_switch.py:341-367 | the index is the exact inverse of the interfaces' VLAN sets, each list sorted without repetition |
| `NvueSwitch.VlanMembers` | src/production_test_framework/switch/nvidia/nvidia_cumulus_switch.py:214-214 | a VLAN's entry is the sorted list of the interfaces whose bridge.domain.br_default.vlan has it, empty without any |
| `NvueSwitch.NvidiaCumulusSwitch.InterfacesApplied` | src/production_test_framework/switch/nvidia/nvidia_cumulus_switch.py:326-330 | answers from the cache when it holds anything, else from the switch, and fills the cache |
| `NvueSwitch.NvidiaCumulusSwitch.ApplyRevision` | src/production_test_framework/switch/nvidia/nvidia_cumulus_switch.py:299-318 | returns exactly when a poll answers that the changeset is applied, after polls a second apart of which none told an outcome; raises when a request fails, the changeset is rejected or a minute is over; raising, leaves the old configuration or the changeset's, and the old one if no apply reached the switch |
| `NvueSwitch.NvidiaCumulusSwitch.StageMembers` | src/production_test_framework/switch/nvidia/nvidia_cumulus_switch.py:215-220 | the loop sends one deletion per member, in order, up to the first that fails, and stages the deletion from exactly the members |
| `NvueSwitch.NvidiaCumulusSwitch.StageDeletion` | src/production_test_framework/switch/nvidia/nvidia_cumulus_switch.py:213-225 | reads the members, creates a changeset and stages their deletions and the domain's, in that order and up to the first request that fails; the changeset then is the configuration without the VLAN |
| `NvueSwitch.NvidiaCumulusSwitch.DeleteVlan` | src/production_test_framework/switch/nvidia/nvidia_cumulus_switch.py:205-227 | sends those requests and then applies, raising exactly when one of them or the apply fails; returning, leaves the old configuration without the VLAN and both caches empty; raising before the apply request, the old configuration; raising later, one of the two |
| `VllmWorkers.DisaggregatedWorkers` | src/production_test_framework/vllm/server.py:186-199 | each worker's role, GPUs and ports by its place, prefill first |
| `VllmWorkers.WorkersInOrder` | src/production_test_framework/vllm/server.py:186-199 | prefill workers listen on 8100 and up, decode workers on 8200 and up, side channels on 5600 and up, and each takes the next tensor_parallel GPUs of its pool, prefill first |
| `VllmWorkers.GpusPartition` | src/production_test_framework/vllm/server.py:186-199 | for any pools the workers' GPUs are disjoint, contiguous, tensor_parallel each, and together exactly 0 to the total |
| `VllmWorkers.NeededGpusAreAll` | src/production_test_framework/vllm/server.py:202-203 | needed_gpus is that whole range in order |
| `VllmWorkers.PortsDistinct` | src/production_test_framework/vllm/server.py:186-199 | side-channel ports are distinct; HTTP ports are distinct exactly when there are at most 100 prefill workers or no decode workers |
| `VllmLifecycle.NamesDiffer` | src/production_test_framework/docker.py:43-47 | names made with different sequence numbers differ, whatever their bases |
| `VllmLifecycle.LiveContainersAreListed` | src/production_test_framework/vllm/server.py:408-410 | at every moment of a run up to a stop, each live container is in the list under a name of its own |
| `VllmLifecycle.ProperKeepsAccount` | src/production_test_framework/vllm/server.py:434-455 | every step that lists only new names and launches only listed ones keeps each live container listed or leaked by an earlier stop |
| `VllmLifecycle.ServedBeforeProxy` | src/production_test_framework/vllm/server.py:411-424 | what follows the wait for the workers follows each of them being seen serving |
| `VllmLifecycle.DockerHost.ForceRemove` | src/production_test_framework/docker.py:58-82 | true exactly when docker says the container is gone; retries only while it is still dying, and gives up only on another answer or when the next try would come after two minutes |
| `VllmLifecycle.VllmDeployment.RunContainer` | src/production_test_framework/vllm/server.py:441-455 | the name is listed before docker runs, whether a container is created, reported or neither |
| `VllmLifecycle.VllmDeployment.LaunchWorkers` | src/production_test_framework/vllm/server.py:395-410 | launches no proxy; goes on until a docker run fails, and else has listed and created, in order, one container per worker, named after its role and the next number |
| `VllmLifecycle.VllmDeployment.AwaitWorkers` | src/production_test_framework/vllm/server.py:411-412 | waits for the workers in order up to the first that does not serve, and succeeds exactly when each serves and there are as many as containers |
| `VllmLifecycle.VllmDeployment.LaunchProxy` | src/production_test_framework/vllm/server.py:414-424 | succeeds exactly when the script is copied, the container runs and is seen serving |
| `VllmLifecycle.VllmDeployment.Start` | src/production_test_framework/vllm/server.py:381-424 | at every step, failing or not, live containers are listed; it raises exactly when it may not start, workers are listed already or something it asks for fails; the proxy is launched only after every worker was seen serving, and only for a disaggregated deployment; success means all serve, the proxy too |
| `VllmLifecycle.VllmDeployment.Stop` | src/production_test_framework/vllm/server.py:434-439 | tries to remove each listed container once, in order, then empties the lists; what docker took away is not live, and nothing is if each removal succeeded |
| `VllmLifecycle.VllmDeployment.Enter` | src/production_test_framework/vllm/server.py:370-376 | a successful enter has all of a start's conclusions, and one fails exactly when the start does; it has then tried to remove every container listed: nothing is live if each removal succeeded |
| `ModelFit.FitsIff` | src/production_test_framework/vllm/model_fit.py:195-229 | no shortfall exactly when weights / tp + overhead + length * KV(tp) fit in the usable memory |
| `ModelFit.DefaultsSpelledOut` | src/production_test_framework/vllm/model_fit.py:71-80 | a missing or zero number of KV heads counts as the number of heads, a missing or zero head size as hidden size / heads, and single precision takes twice the room of any other type |
| `ModelFit.HalfPrecisionCache` | src/production_test_framework/vllm/model_fit.py:71-80 | 32 layers with 8 KV heads of size 4096 / 32 take 128 KiB per token, and 16 KiB on each of 8 or 16 GPUs |
| `ModelFit.FitsOnMoreAndShorter` | src/production_test_framework/vllm/model_fit.py:195-229 | a model that fits at tp fits at every larger tp and every shorter length |
| `ModelFit.SharesCoverTheCache` | src/production_test_framework/vllm/model_fit.py:71-80 | tp * KV(tp) is at least KV(1), and equal exactly when tp divides the KV heads |
| `ModelFit.WeightsAreToBlame` | src/production_test_framework/vllm/model_fit.py:216-228 | the weights are blamed exactly when not even a request of no tokens would fit; blaming the cache does not mean that lowering the length, as advised, helps |
| `ModelFit.LoweringHelpsIff` | src/production_test_framework/vllm/model_fit.py:216-228 | some length from 1 up fits exactly when weights / tp + overhead + one token's KV(tp) fit in the usable memory |
| `ModelFit.CacheIsBlamedInVain` | src/production_test_framework/vllm/model_fit.py:216-228 | where the weights fit but not one token's cache beside them, every length from 1 up is told to lower max_model_len, which never helps |
| `ModelFit.ThousandBytesAreTooFew` | src/production_test_framework/vllm/model_fit.py:222-228 | such a model exists: 32 layers of 8 KV heads of size 128 and 1000 bytes left for the cache |
| `RopeOverride.SuitsExactlyWhereNeeded` | src/production_test_framework/vllm/model_fit.py:280-329 | with both lengths known, a profile passes exactly when it has an override just where the model's own context falls short |
| `RopeOverride.SetsUnlessEmpty` | src/production_test_framework/vllm/model_fit.py:290-291 | an override that is null, false, zero or empty counts as none |
| `RopeOverride.NamesTheOverride` | src/production_test_framework/vllm/model_fit.py:291-296 | the override the advice names is one that is set, by its newer name if both are |
| `RopeOverride.StretchedArguments` | src/production_test_framework/vllm/model_fit.py:298-309 | the stretched arguments hold a factor that takes the model's own context to within 0.005 of itself of max_model_len, and every other override and argument unchanged |
| `RopeOverride.LoweredArguments` | src/production_test_framework/vllm/model_fit.py:321-321 | lowering sets max_model_len to the model's own context and changes no other argument |
| `RopeOverride.StretchingAndLoweringRepair` | src/production_test_framework/vllm/model_fit.py:297-328 | either way out of a context that is too short passes the check at once, and lowering is offered exactly when the model's own context holds min_context |
| `RopeOverride.CommentingOutUnsets` | src/production_test_framework/vllm/model_fit.py:252-266 | commenting out removes that key from hf_overrides and leaves every other argument |
| `RopeOverride.CommentingOutRepairs` | src/production_test_framework/vllm/model_fit.py:288-296 | following the advice to comment out passes the check after as many rounds as RoPE keys were set |
| `RopeOverride.StretchedLength` | src/production_test_framework/vllm/model_fit.py:304-304 | the rounded factor stretches to within 0.005 * native of max_model_len |
| `RopeOverride.Round2IsNearest` | src/production_test_framework/vllm/model_fit.py:310-310 | the factor is the nearest hundredth, and of two as near the even one |
| `RopeOverride.PrintYaml` | src/production_test_framework/vllm/model_fit.py:232-244 | the loop prints the lines of the mapping, innermost mappings on one line |
| `RopeOverride.OneLineIffInnermost` | src/production_test_framework/vllm/model_fit.py:232-244 | an entry takes one line exactly when it holds no mapping of mappings |
| `RopeOverride.ReadYaml` | src/production_test_framework/vllm/model_fit.py:232-244 | lines printed at any indentation, whatever follows them, read back as the mapping |
| `RopeOverride.SectionReadsBack` | src/production_test_framework/vllm/model_fit.py:247-249 | the section printed for a repair reads back as the repaired arguments |
| `RopeOverride.CommentedOverrides` | src/production_test_framework/vllm/model_fit.py:262-265 | what stays uncommented of hf_overrides: the other keys under their heading, or nothing; without comment signs, all of it |
| `RopeOverride.CommentedSection` | src/production_test_framework/vllm/model_fit.py:252-266 | the uncommented lines read back as the arguments without that key, and as nothing when it was all there was; without comment signs all lines read back as the arguments |
| `DisaggProxy.PrefillBodySpec` | src/production_test_framework/vllm/disagg_proxy.py:63-67 | the prefill request asks for one token, unstreamed, its blocks kept, and is the client's otherwise |
| `DisaggProxy.EditForPrefill` | src/production_test_framework/vllm/disagg_proxy.py:63-67 | the edits in place give that request |
| `DisaggProxy.WorkersShareEvenly` | src/production_test_framework/vllm/disagg_proxy.py:68-73 | in every interleaving of completions no worker of either pool is more than one request ahead of another |
| `DisaggProxy.DecodesAreHandedOff` | src/production_test_framework/vllm/disagg_proxy.py:68-76 | every decode request follows a 200 prefill of its own completion, carries that answer's KV parameters, and is the client's otherwise |
| `DisaggProxy.HandedOnExactlyAfterSuccess` | src/production_test_framework/vllm/disagg_proxy.py:69-73 | a prefill's reply leads to a decode request exactly when it is a 200 holding a JSON object |
| `DisaggProxy.OneRequestEach` | src/production_test_framework/vllm/disagg_proxy.py:60-83 | every completion asks a prefill worker, no completion asks either pool twice, and no request is replied to twice |
| `DisaggProxy.AnsweredAsReplied` | src/production_test_framework/vllm/disagg_proxy.py:68-83 | in every interleaving a completion is answered with a status exactly when its decode replied with it, or its prefill with one other than 200; has failed exactly when a reply was lost or its prefill's 200 held no JSON object; and waits exactly while the reply it waits for is missing |
| `DisaggProxy.Proxy.Receive` | src/production_test_framework/vllm/disagg_proxy.py:60-68 | the state after the first piece of a completion |
| `DisaggProxy.Proxy.PrefillAnswers` | src/production_test_framework/vllm/disagg_proxy.py:68-76 | the state after the prefill's reply: failed, answered, or a decode asked |
| `DisaggProxy.Proxy.DecodeAnswers` | src/production_test_framework/vllm/disagg_proxy.py:74-83 | the state after the decode's reply |
| `TimedLoops.RoundsFit` | src/production_test_framework/helper.py:164-187 | a round starts before the timeout exactly when fewer than timeout / interval, rounded up, went before it |
| `TimedLoops.RunCancellable` | src/production_test_framework/helper.py:112-187 | at most timeout / poll_interval waits, rounded up, each at most the interval, at most a hundredth past the deadline, and right after finding the run not cancelled, the input only with the first; a run found cancelled is terminated at once, and exactly such a run is reported so; timed out only when the time is over; how each other ending came about, and the trimmed output |
| `TimedLoops.FinishTerminated` | src/production_test_framework/helper.py:121-145 | the group is asked to end first, and killed only after half a minute; the output is what the last wait brought |
| `TimedLoops.PollUntil` | src/production_test_framework/helper.py:190-219 | between 1 and timeout / interval, rounded up, plus 1 evaluations; the last value is returned; only the last can be true; false only once the time is over |
| `FittedRise.FittedLineIsBest` | src/production_test_framework/helper.py:222-234 | no line has a smaller sum of squared residuals than the fitted one, and no other line has as small a one |
| `FittedRise.ErrorDecomposes` | src/production_test_framework/helper.py:232-232 | any line's error is the fitted line's plus the squared gaps between the two |
| `FittedRise.MiddleIsMean` | src/production_test_framework/helper.py:222-234 | (start + end) / 2 is the mean of the samples kept |
| `FittedRise.ReversingSwapsEnds` | src/production_test_framework/helper.py:222-234 | with settle 0, reversing the samples swaps start and end |
| `FittedRise.ScalingKeepsTheRise` | src/production_test_framework/helper.py:222-234 | scaling the samples by a positive constant scales both ends and leaves the rise, for any settle |
| `FittedRise.StraightSamples` | src/production_test_framework/helper.py:222-234 | samples on a line start at the first, end at the last, and rise by their ratio, or 0 when the first is not positive |
| `FittedRise.SettlingIsLeftOut` | src/production_test_framework/helper.py:229-229 | the samples before settle do not count, unless fewer than three would be left |
| `FittedRise.TooFewSamples` | src/production_test_framework/helper.py:229-231 | fewer than two samples give zeros, whatever the settling time |
| `Grafana.MatchesExactlyTokens` | src/production_test_framework/grafana.py:446-447 | the pattern matches exactly where the text goes on with $name, ${name} or ${name:modifier} |
| `Grafana.TextIsCut` | src/production_test_framework/grafana.py:446-472 | every text can be cut into tokens and characters that start none |
| `Grafana.OnlyOneCut` | src/production_test_framework/grafana.py:446-472 | in one way only |
| `Grafana.TokensAreReplacedOnce` | src/production_test_framework/grafana.py:453-472 | each token gives way to its replacement, taken as it is, and every other character stays |
| `Grafana.TokenMeans` | src/production_test_framework/grafana.py:455-470 | a built-in interval gives the interval, `__interval_ms` 60000, an unknown name itself, and a known one its value, which the regex modifier makes an expression for just that text unless it is `.*` |
| `Grafana.LeavesNoDollar` | src/production_test_framework/grafana.py:453-472 | no `$` is left exactly when every `$` starts a token with a known name and a value without `$`; a second pass then changes nothing |
| `Grafana.SecondPassChangesNothing` | src/production_test_framework/grafana.py:453-472 | where no plain character is a `$` and no token is replaced by text with one, a second pass changes nothing if no unknown bare name becomes a known one together with the name characters the replaced text behind it starts with; while no value at all has a `$`, only then |
| `Grafana.SecondPassCanReplace` | src/production_test_framework/grafana.py:453-472 | a plain `$` before a token can make a new token, which only a second pass replaces |
| `Grafana.EscapedStandsForItself` | src/production_test_framework/grafana.py:468-469 | a value escaped for the regex modifier has no character with a meaning left bare and stands, as a regular expression, for its own characters |
| `Grafana.ShapeIsKept` | src/production_test_framework/grafana.py:475-485 | on every path a nested structure keeps its kind, length and keys; its strings are interpolated where they stand, and nothing else changes |
| `Formatting.LinesAreEqual` | src/production_test_framework/reporting/formatting.py:198-212 | all lines of a table are equally long exactly when no column is entirely empty |
| `Formatting.RuleReadsBack` | src/production_test_framework/reporting/formatting.py:211-212 | the rule reads back as one cell per column, and is a left-aligned delimiter (GitHub Flavored Markdown Spec, section 4.10) exactly for the columns with some escaped cell of two characters |
| `Formatting.UnescapeEscape` | src/production_test_framework/reporting/formatting.py:193-195 | dropping one backslash before each bar undoes the escaping |
| `Formatting.RowReadsBack` | src/production_test_framework/reporting/formatting.py:208-209 | splitting a row's line at its unescaped bars, trimming and unescaping gives its cells |
| `Formatting.TableReadsBack` | src/production_test_framework/reporting/formatting.py:198-212 | so a rectangular table with rows reads back as its headers and rows |

## Left out

- CommandWorkload.WaiterIsReleased: the polling of `wait_for` itself is not modelled, only that what it waits for comes about; a command is assumed to return in the end.
- CommandWorkload.RestartIsSafeIffNoneMayComplete: is about the status; an older run's late write of the raw result is not covered.
- Executor shutdown, exceptions that are not `Exception`s, and a submit the executor refuses. A pool thread counts as free once its run's outcome is decided, slightly earlier than in Python, which only adds interleavings. `_safe_cleanup` changes no shared field and is no step.
- PortName.PlainReadsBack: letters and digits are ASCII; Python's `\d` also takes other decimal digits.
- EnvVars.EnvironmentCheck.Record: paths are abstract and resolving one is a given function to a list of directory names; reading a declarations file is not modelled.
- GpuEconomics.UpdateKeepsNames: asks that fetched keys are fixed points of `_normalise`, as the loader checks for its own table; the fetcher does not check it, and `_normalise` is not idempotent.
- GpuEconomics.UpdatingTwiceIsUpdatingOnce: needs fetched names disjoint between chips, which the fetcher does not check; `GpuEconomics.OverlapUpdatesTwice` shows that it fails without.
- NvueSwitch.NvidiaCumulusSwitch.DeleteVlan: assumes that the switch applies a changeset whole and that nobody else writes; the operational interface cache is only emptied, and the driver's other writes follow the same create, stage, apply steps.
- Building docker commands, saving logs and copying the proxy's script are outcomes that may fail; `__exit__` is `Stop`.
- ModelFit.FitsIff: over reals, while Python's floats round.
- Disk space, the file patterns of a model and the remote cache size: sums over file lists, without branching worth a proof.
- RopeOverride.ReadYaml: a value printed on one line is carried as that value, not as YAML text; a `hf_overrides` that is neither a mapping nor empty makes Python raise and counts as empty here.
- RopeOverride.CommentedSection: for arguments whose `hf_overrides` is a mapping, the only ones the check calls it with.
- DisaggProxy.Proxy.Receive: a body that is no JSON object fails before anything happens and is left out, as are response bodies and the streaming of an answer.
- TimedLoops.RunCancellable: the interval must be positive, as no number of rounds bounds the loop otherwise; a wait that times out takes at least its timeout. Decoding the output and the wording put before stderr are left out.
- TimedLoops.PollUntil: the interval must be positive, and the condition returns.
- Grafana.Interpolate: `str.isalnum`-like classes are the pattern's ASCII ones; where the variables' values come from is not modelled.
- Formatting.TableReadsBack: cells without newlines and without spaces at either end, which trimming could not tell from padding; at least one column. A table that is not rectangular makes Python raise.
- The plain-text and HTML renderings of a table, charts, durations and numbers: formatting without an inverse to prove.
- The Arista and Cisco drivers, SSH, Kubernetes, Loki, the vLLM client and AgentX scoring: thin layers over other programs.
