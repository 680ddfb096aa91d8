# richard — a model of the chat bot's core

richard is a Webex chat bot built from modules. The bot registers a module
when its `BOT_MODULE_<NAME>_ENABLED` variable is `1` or `true`. It runs every
variation of every module on that variation's cooldown, and hands each batch
of messages a run produces to the modules that can send messages. The
`triggers` module polls the chat modules for unread messages. It routes each
message to the modules whose trigger words the message contains, or else to
the catch-all modules, and posts their answers as replies.

Each module is modelled here in one Dafny module per source file.

- The watchers remember the last thing they saw and announce changes:
  - liveness and version of API endpoints (`endpoints`, `osc`,
    `outscale_api_versions`) and of down detectors (`down_detectors`);
  - newest feed entries (`feeds`, `feed`) and web page bodies (`webpages`);
  - GitHub releases, per repository (`github_repos`), per organisation
    (`github_orgs`) and through the release cache of `github`.
- The conversational modules: `ping`, `help`, `hello`, `roll`.
- Shared pieces:
  - the Schmitt trigger on consecutive probe failures (`Liveness`);
  - the "report when a stored value changes" watch (`VersionWatch`);
  - the paged GitHub listing loops (`Paging`);
  - the indexed environment variables `<PREFIX><i><SUFFIX>` (`Config`);
  - small string, number and sequence helpers (`Common`).

Network answers, the environment, the clock, random choices and hashes are
parameters of the model:

- a fetch or probe result is an `Option`, a `Result` or a `Probe`;
- a per-item result is a function from index or name to that value;
- the environment is a `map<string, string>`;
- dice faces come from a function `choice: nat -> nat`;
- the hello quote comes from an index `pick`;
- release hashes come from a function `hash`;
- "published more than ten days ago" is a predicate `tooOld`.

State the source updates in place is kept in classes whose methods name what
they modify. Each method is proved against a specification function, and the
lemmas are about those functions.

## Model

| member | source | states |
|---|---|---|
| Bot.NewModuleData | src/bot.rs:88-101 | the registry entry records exactly the module's name, variation durations, parameters and capabilities |
| Bot.IsModuleEnabled | src/bot.rs:242-263 | a module is enabled iff `BOT_MODULE_<NAME>_ENABLED` (name upper-cased) is set to exactly "1" or "true"; an unset variable disables it |
| Common.ToUpperIdempotent | src/bot.rs:243 | upper-casing a module name twice gives the same name as once |
| Bot.EnabledIgnoresCase | src/bot.rs:243 | whether a module is enabled does not depend on the case of its name |
| Bot.ParamMap | src/bot.rs:168-174 | the parameter map has a key for every parameter name and no other key |
| Bot.ParamMapLastWins | src/bot.rs:168-174 | when a name repeats, the map keeps the last parameter of that name |
| Bot.HelpOrdersEach | src/bot.rs:176-184 | each module's parameter lines enumerate every key of its parameter map exactly once |
| Bot.HelpDocStep | src/bot.rs:156-188 | the help text grows module by module: header, enable line, one line per parameter, blank line |
| Bot.ModuleWorkers | src/bot.rs:199-217 | one worker per variation of a module, with that variation's index and cooldown |
| Bot.VariationWorkersExactly | src/bot.rs:198-219 | the variation workers are exactly the (module, variation) pairs with their cooldowns; their count is the total number of variations; the broadcaster is not among them |
| Bot.Post | src/bot.rs:195-213 | a run with nothing to say leaves the mailbox alone; a batch is queued at the back unless the 100-slot mailbox is full |
| Bot.MailboxIsFifo | src/bot.rs:195-238 | whatever the interleaving of finished runs and broadcaster polls, the mailbox holds at most 100 batches, and the batches the broadcaster takes, followed by those still queued, are exactly the posted batches in posting order |
| Bot.Bot.constructor | src/bot.rs:104-107 | the registry starts empty |
| Bot.Bot.Register | src/bot.rs:129-147 | a disabled module or a failed construction leaves the registry unchanged; otherwise the module is appended with the next handle |
| Bot.Bot.Help | src/bot.rs:156-188 | the output is the help document of the registry along one enumeration of each parameter map |
| Bot.Bot.ParamLinesOf | src/bot.rs:176-184 | the parameter lines enumerate the parameter map once per key |
| Bot.Bot.SpawnWorkers | src/bot.rs:190-238 | no module means no worker; otherwise one worker per variation plus the broadcaster |
| Bot.Bot.Broadcast | src/bot.rs:221-238 | the front batch of the mailbox is delivered once to each send-capable module in registry order, and the rest of the mailbox remains |
| Bot.BroadcastReachesExactlySenders | src/bot.rs:226-231 | a registered module receives broadcasts iff its capabilities say `send_message` |
| Bot.SendersAreModules | src/bot.rs:226-231 | broadcasts go only to registered modules |
| Triggers.DefaultModulesAreIgnored | src/triggers.rs:26-43 | a module with the default capabilities is neither routed to nor polled |
| Triggers.TriggeredIff | src/triggers.rs:101-118 | a message is triggered iff some routed module has a trigger word the message contains |
| Triggers.UnknownHandleNotCalled | src/triggers.rs:91-136 | a module that is not routed to is never called, in either pass |
| Triggers.FirstPassCallsCount | src/triggers.rs:91-118 | a module is called in the first pass once if it catches all, plus once per trigger word the message contains, and no other module shares those calls |
| Triggers.CallCount | src/triggers.rs:91-136 | a routed module is called once if it catches all, plus once per trigger word the message contains, plus once more if nothing triggered and it catches non-triggered messages |
| Triggers.UnroutedNotCalled | src/triggers.rs:91-136 | no call goes to a module outside the routing list |
| Triggers.ResponsesSnoc | src/triggers.rs:91-136 | each call appends that module's answers, in call order |
| Triggers.RepliesAnswerReadMessages | src/triggers.rs:137-140 | every reply goes to the chat module that was polled, in answer to a message it returned |
| Triggers.RoundRepliesEach | src/triggers.rs:49-55 | a round has one reply batch per chat module, each being what that module's unread messages produce |
| Triggers.Triggers.constructor | src/triggers.rs:75-77 | both lists start empty |
| Triggers.Triggers.ModuleOffering | src/triggers.rs:26-43 | the routing list keeps, in registry order, the modules other than `triggers` with trigger words, catch-non-triggered or catch-all; the chat list keeps those that read or respond |
| Triggers.Triggers.TriggerLoop | src/triggers.rs:101-118 | one call per trigger word the message contains; the flag says whether any matched |
| Triggers.Triggers.ModuleStep | src/triggers.rs:91-119 | one module's first-pass calls: catch-all first, then its matching triggers |
| Triggers.Triggers.RunMessage | src/triggers.rs:87-136 | the calls made for one message are the first pass, then the fallback pass when nothing triggered; the responses are the answers of those calls in order |
| Triggers.Triggers.FallbackLoop | src/triggers.rs:120-136 | the fallback pass calls the catch-non-triggered modules in routing order |
| Triggers.Triggers.RunChatModule | src/triggers.rs:79-141 | a failed poll gives no reply; otherwise every unread message gets the replies its routing produces |
| Triggers.Triggers.RespondAll | src/triggers.rs:137-140 | each response becomes a reply to the message in the polled chat |
| Triggers.Triggers.Run | src/triggers.rs:49-55 | the module itself says nothing, and the replies are those of polling every chat module once |
| Triggers.SingleTrigger | src/triggers.rs:103 | a single trigger matches iff the message contains it |
| Triggers.TwoModuleCalls | src/triggers.rs:91-136 | with two routed modules the first pass is the first's calls then the second's |
| Triggers.PingIsTriggered | src/triggers.rs:101-118 | "/ping now" reaches only the ping module, not the catch-non-triggered chat module |
| Triggers.OtherMessagesFallBack | src/triggers.rs:120-136 | "hello" reaches only the catch-non-triggered module |
| Triggers.CatchAllIsNotTriggering | src/triggers.rs:92-100 | a catch-all call does not count as a trigger, so the fallback still runs |
| Config.ReadIndexedPairs | src/down_detectors.rs:87-98 | the configured pairs are read from index 0 up to the first index missing either variable, at most 100 |
| Config.ReadIndexedValues | src/github_orgs.rs:83-93 | the configured values are read from index 0 up to the first missing index, at most 100 |
| Liveness.CodeTextShowsStatus | src/down_detectors.rs:261-270 | a 503 reads as the maintenance text; any other status shows its code (src/osc.rs words it the same way) |
| Liveness.NextCount | src/down_detectors.rs:189-195 | a success lowers the failure count by one down to 0; a failure raises it by one up to 10 |
| Liveness.NextAlive | src/down_detectors.rs:197-201 | the state flips from alive to dead exactly at count 6, and from dead to alive exactly at count 3 |
| Liveness.AliveStep | src/down_detectors.rs:182-203 | a failure records its error, a success keeps the last one, and the count stays within 0..10 |
| Liveness.AliveStepAsWritten | src/down_detectors.rs:189-195 | as written, a probe leaves the stored failure count untouched |
| Liveness.RunAlive | src/down_detectors.rs:182-203 | any probe history leaves the monitor consistent |
| Liveness.Hysteresis | src/down_detectors.rs:183-201 | after any probe history the target is down iff, since some point, the count reached 6 and never fell back to 3 |
| Liveness.AsWrittenNeverDies | src/down_detectors.rs:189-201 | as written, the count stays 0 and the target stays alive whatever the probes say |
| Liveness.ConsecutiveFailures | src/down_detectors.rs:185-201 | n failures in a row give count min(n, 10), and the target is alive iff n < 6 |
| Liveness.SixFailuresCounterexample | src/down_detectors.rs:189-201 | six failures mark the target down with the count stored, but not as written |
| Liveness.SampleStep | src/down_detectors.rs:213 | the window counter saturates at the u32 maximum and nothing else changes |
| Liveness.SampleGating | src/down_detectors.rs:205-219 | an error rate is reported from the 100th sample on, never before |
| Liveness.DeathHasReason | src/down_detectors.rs:189-201 | a target can only be marked down after some probe failed and recorded its error |
| Liveness.AliveMessage | src/down_detectors.rs:221-235 | a message exactly on a transition (except a death whose last error is an agent-init error), "is up" on recovery, and the error text on a death |
| Liveness.AsWrittenIsSilent | src/down_detectors.rs:221-235 | as written, `alive` never says anything |
| Liveness.VersionText | src/endpoints.rs:79-82 | a missing version shows as "unkown" |
| VersionWatch.VersionReport | src/endpoints.rs:181-189 | a new version is reported iff there was a stored version and the fetched one differs |
| VersionWatch.VersionStore | src/endpoints.rs:181-189 | a failed fetch keeps the stored version; a successful one replaces it |
| VersionWatch.ChangesSnoc | src/endpoints.rs:181-189 | one more success adds a report exactly when it differs from the previous success |
| VersionWatch.ReportsAreChanges | src/endpoints.rs:181-189 | along any fetch history the stored value is the last success, and the reports are exactly the changes between successive successes |
| Paging.StopsAtFirstStop | src/github.rs:100-106 | the result does not depend on which stopping page bounds the walk: it ends at the first short page |
| Paging.OnlyPagesUpToStop | src/github.rs:100-106 | pages after the first short page are never looked at |
| Paging.StrictIsPartialOrNothing | src/github.rs:264-296 | the strict walk fails entirely or gives the same items as the tolerant walk |
| Paging.FetchStrict | src/github.rs:249-296 | the loop collects the pages from page 1 to the first short page, and any failed page fails the whole listing |
| Paging.FetchPartial | src/github.rs:61-111 | the loop collects the pages from page 1 to the first short page, and a failed page ends the listing with what was gathered |
| DownDetectors.DownDetector.constructor | src/down_detectors.rs:143-154 | a new detector is alive with no failure, no error and no sample |
| DownDetectors.DownDetector.UpdateAlive | src/down_detectors.rs:182-203 | one Schmitt-trigger step with the failure count stored; returns the state before and after |
| DownDetectors.DownDetector.UpdateErrorRate | src/down_detectors.rs:205-219 | one sample counted, with a report iff the window is full |
| DownDetectors.DownDetector.Alive | src/down_detectors.rs:221-242 | one liveness step, and the message that step's transition calls for |
| DownDetectors.DownDetectors.constructor | src/down_detectors.rs:83-86 | an empty watch list |
| DownDetectors.DownDetectors.New | src/down_detectors.rs:82-103 | without a Webex agent construction fails with the agent's error; otherwise one detector per configured (name, URL) pair, in index order |
| DownDetectors.DownDetectors.RunErrorRate | src/down_detectors.rs:105-117 | every detector counts one sample |
| DownDetectors.DownDetectors.RunAlive | src/down_detectors.rs:119-127 | every detector takes one liveness step with its own probe, and the messages said are their outcomes in list order |
| DownDetectors.DownDetectors.AliveAt | src/down_detectors.rs:121-125 | one detector steps and the others are unchanged |
| DownDetectors.DownDetectors.Run | src/down_detectors.rs:49-55 | variation 0 counts samples; 1 takes one liveness step per detector and says the batch of their transition messages, in list order; any other changes nothing and says nothing |
| DownDetectors.DownDetectors.Trigger | src/down_detectors.rs:67-78 | the status text is one "name: alive=…, error_rate=…" line per detector, in list order; as the call is written, `respond(&response, id)` posts a reply whose parent is that text and whose text is the message id |
| Endpoints.Endpoint.constructor | src/endpoints.rs:165-177 | a new endpoint has no version and is alive with no failure |
| Endpoints.Endpoint.UpdateVersion | src/endpoints.rs:181-189 | the version watch step: report iff a stored version changed; a failed fetch keeps the stored one |
| Endpoints.Endpoint.UpdateAlive | src/endpoints.rs:219-240 | one Schmitt-trigger step with the failure count stored |
| Endpoints.Endpoint.UpdateErrorRate | src/endpoints.rs:242-256 | one sample counted, with a report iff the window is full |
| Endpoints.Endpoint.Alive | src/endpoints.rs:258-282 | one liveness step, and the region message its transition calls for |
| VersionWatch.VersionNews | src/endpoints.rs:119-121 | "New API version on <name>: <version>" exactly when the version watch reports; src/outscale_api_versions.rs:104-106 words it the same way |
| Endpoints.Endpoints.constructor | src/endpoints.rs:95-98 | an empty endpoint list |
| Endpoints.Endpoints.New | src/endpoints.rs:94-112 | without a Webex agent construction fails; otherwise one endpoint per configured (name, endpoint) pair |
| Endpoints.Endpoints.RunVersion | src/endpoints.rs:115-124 | every endpoint takes one version step, and the news said are their reports in list order |
| Endpoints.Endpoints.VersionAt | src/endpoints.rs:117-121 | one endpoint's version step; the others keep their versions |
| Endpoints.Endpoints.RunErrorRate | src/endpoints.rs:126-138 | every endpoint counts one sample |
| Endpoints.Endpoints.RunAlive | src/endpoints.rs:140-148 | every endpoint takes one liveness step, and the messages said are their outcomes in order |
| Endpoints.Endpoints.AliveAt | src/endpoints.rs:142-146 | one endpoint steps and the others are unchanged |
| Endpoints.Endpoints.Run | src/endpoints.rs:54-61 | variation 0 samples; 1 takes one liveness step per endpoint and says the batch of their transition messages; 2 fetches every version and says the batch of version news, in list order; any other changes nothing; only 1 and 2 say something |
| Endpoints.Endpoints.Trigger | src/endpoints.rs:71-90 | a message without "/status" is ignored; otherwise the status text lists every endpoint's liveness, version ("unkown" if none) and error rate, and, as the call is written, the reply posted has that text as its parent and the message id as its text |
| Osc.Endpoint.constructor | src/osc.rs:54-66 | a new region endpoint has no version and is alive with no failure |
| Osc.Endpoint.UpdateVersion | src/osc.rs:70-78 | the version watch step, leaving liveness alone |
| Osc.Endpoint.UpdateAlive | src/osc.rs:106-127 | one Schmitt-trigger step with the count stored, leaving the version alone |
| Osc.Endpoint.UpdateErrorRate | src/osc.rs:129-143 | one sample counted, with a report iff the window is full |
| Osc.Endpoint.Alive | src/osc.rs:145-166 | one liveness step with the region wording of its message |
| OutscaleApiVersions.Endpoint.constructor | src/outscale_api_versions.rs:120-126 | a new endpoint has no version |
| OutscaleApiVersions.Endpoint.UpdateVersion | src/outscale_api_versions.rs:130-138 | the version watch step |
| OutscaleApiVersions.OutscaleApiVersions.constructor | src/outscale_api_versions.rs:78-81 | an empty endpoint list |
| OutscaleApiVersions.OutscaleApiVersions.New | src/outscale_api_versions.rs:77-98 | without a Webex agent construction fails; otherwise one endpoint per configured (name, endpoint) pair |
| OutscaleApiVersions.OutscaleApiVersions.RunVersion | src/outscale_api_versions.rs:100-109 | every endpoint takes one version step, and the news said are their reports in order |
| OutscaleApiVersions.OutscaleApiVersions.VersionAt | src/outscale_api_versions.rs:102-106 | one endpoint's version step; the others keep theirs |
| OutscaleApiVersions.OutscaleApiVersions.Run | src/outscale_api_versions.rs:45-47 | every variation runs the version check |
| OutscaleApiVersions.OutscaleApiVersions.Trigger | src/outscale_api_versions.rs:61-73 | the version text lists "name: version=…" for every endpoint, "unkown" when none is known; as the call is written, the reply posted has that text as its parent and the message id as its text |
| GithubRepos.Maintained | src/github_repos.rs:180-183 | unknown without details; maintained iff neither a fork nor archived |
| GithubRepos.InsertAllKeys | src/github_repos.rs:164-172 | after a run the known tags are the old ones plus those listed |
| GithubRepos.NewReleaseMessages | src/github_repos.rs:164-172 | at most one message per listed release |
| GithubRepos.UnseenIffAbsent | src/github_repos.rs:165-167 | a listed release counts as new iff its tag was not known before it in the run |
| GithubRepos.KnownTagsAreSilent | src/github_repos.rs:164-177 | a listing whose tags are all known announces nothing |
| GithubRepos.SeededRepeatIsSilent | src/github_repos.rs:143-177 | the run after seeding, on the same listing, announces nothing |
| GithubRepos.RepoRun | src/github_repos.rs:119-178 | details are fetched only while unknown; an unmaintained or unknown repository or a failed listing changes nothing and says nothing; the first listing seeds silently; later ones announce each new tag that is not too old |
| GithubRepos.RepoRunAnnounces | src/github_repos.rs:160-177 | on a seeded maintained repository, the messages are the new, recent releases and the known tags grow by the listed ones |
| GithubRepos.GithubRepo.constructor | src/github_repos.rs:109-117 | a new repository has no details and no releases |
| GithubRepos.GithubRepo.New | src/github_repos.rs:109-117 | construction fails exactly when `GITHUB_TOKEN` is unset |
| GithubRepos.GithubRepo.GetReleases | src/github_repos.rs:224-283 | no agent means no listing; otherwise every page up to the first short page of 60, and any failed page fails the listing |
| GithubRepos.GithubRepo.Diff | src/github_repos.rs:163-173 | the loop merges every listed release into the known map and collects the messages of the new, recent ones |
| GithubRepos.GithubRepo.Run | src/github_repos.rs:119-178 | one run is the `RepoRun` step on the repository's state |
| GithubRepos.GithubRepos.constructor | src/github_repos.rs:77-79 | no repository |
| GithubRepos.GithubRepos.New | src/github_repos.rs:76-95 | one repository per configured `GITHUB_REPOS_<i>_FULLNAME` up to the first gap; fails iff one is configured without a token |
| GithubRepos.GithubRepos.RunAt | src/github_repos.rs:41-43 | one repository runs and the others keep their state |
| GithubRepos.GithubRepos.Run | src/github_repos.rs:40-45 | every repository runs once and the module says nothing |
| Github.CopiesCount | src/github.rs:220-227 | a listed repository is kept once per time its name is requested |
| Github.MatchesAppend | src/github.rs:220-229 | the matches of a listing are the matches of its pages, page after page |
| Github.MatchesAreRequested | src/github.rs:220-227 | every kept repository is listed and requested |
| Github.SemverOfVersion | src/github.rs:306-307 | every "v<a>.<b>.<c>" with one- or two-digit numbers has the version shape |
| Github.SemverIsVersion | src/github.rs:306-307 | everything with the version shape is such a "v<a>.<b>.<c>" |
| Github.SplitGroup | src/github.rs:306-307 | a version-shaped text starts with a one- or two-digit number followed by its remaining groups |
| Github.AsWrittenAcceptsAnySeparator | src/github.rs:306-309 | the pattern as written accepts "v1x2x3", which has no version shape |
| Github.DefaultTargetIsSemver | src/github.rs:358 | the default target "v0.0.0" has the version shape |
| Github.NotifyAddsNewHashes | src/github.rs:521-538 | afterwards the known hashes are the old ones plus the official ones listed, with one notification per new hash |
| Github.NotificationCount | src/github.rs:521-538 | the number of notifications is the number of official hashes not known before |
| Github.CacheStep | src/github.rs:486-540 | a failure records an unseen repository as unknown and leaves a known one alone; a first success stores the official hashes silently; a known set only grows |
| Github.RepoRound | src/github.rs:480-542 | a round over one organisation's repositories only grows the cache |
| Github.OrgsRound | src/github.rs:473-543 | a round over the organisations only grows the cache |
| Github.Dispatches | src/github.rs:439-465 | the release action is dispatched iff a new release was seen, its tag has the version shape and is not "v0.0.0" |
| Github.LastNamed | src/github.rs:343-347 | the index of the last release named `version`, or -1 when none is |
| Github.Github.constructor | src/github.rs:47-52 | an empty release cache |
| Github.Github.GetAllRepos | src/github.rs:53-112 | no agent means no listing; otherwise every page up to the first short page, a failed page ending the listing |
| Github.Github.MatchPage | src/github.rs:220-227 | one page's matches, once per requested name |
| Github.Github.GetSpecificRepos | src/github.rs:167-238 | the matches of the paged listing, in listing order |
| Github.Github.GetReleases | src/github.rs:240-297 | no agent means no listing; any failed page fails the listing |
| Github.Github.HashOfficial | src/github.rs:498-506 | the set of hashes of the official releases |
| Github.Github.NotifyLoop | src/github.rs:521-538 | the loop announces exactly the `Notify` specification |
| Github.Github.UpdateCache | src/github.rs:486-540 | one repository's cache step, with its notifications said |
| Github.Github.RunRepos | src/github.rs:480-542 | the cache becomes the round's cache over the repositories, with its notifications |
| Github.Github.RunOrgs | src/github.rs:473-543 | the cache becomes the round's cache over the organisations |
| Github.Github.CheckGithubRelease | src/github.rs:469-545 | a round over "outscale" and "outscale-dev" |
| Github.Github.CheckSpecificGithubRelease | src/github.rs:353-467 | a round over "kubernetes", then the dispatches the last new tag calls for |
| Github.Github.GetGithubReleaseBody | src/github.rs:299-352 | a version without the version shape gives nothing; otherwise the body of the last release so named over the maintained repositories, or "" |
| Github.Github.LastBodyLoop | src/github.rs:343-347 | the loop keeps the body of the last release named `version` |
| GithubOrgs.GithubOrg.constructor | src/github_orgs.rs:132-138 | no repository yet |
| GithubOrgs.GithubOrg.New | src/github_orgs.rs:132-138 | construction fails exactly when `GITHUB_TOKEN` is unset |
| GithubOrgs.GithubOrg.GetAllOrgRepos | src/github_orgs.rs:177-250 | every page of 100 up to the first short page, a failed page ending the listing |
| GithubOrgs.GithubOrg.UpdateRepoListing | src/github_orgs.rs:156-175 | a failed listing changes nothing; otherwise every listed full name is watched, fresh, and the others stay |
| GithubOrgs.GithubOrg.RunAt | src/github_orgs.rs:145-149 | one repository runs and the others keep their state |
| GithubOrgs.GithubOrg.RunRepos | src/github_orgs.rs:144-149 | every repository runs once, and the batch is theirs along the map's iteration order |
| GithubOrgs.GithubOrg.RunAlong | src/github_orgs.rs:145-149 | the loop runs the repositories along a given order |
| GithubOrgs.GithubOrg.Run | src/github_orgs.rs:140-154 | with no repository the listing is refreshed first; every repository then runs, and an empty batch is `None` |
| GithubOrgs.GithubOrg.RefreshAndRun | src/github_orgs.rs:141-153 | the first run lists the repositories and runs each fresh one |
| GithubOrgs.GithubOrgs.constructor | src/github_orgs.rs:82 | no organisation |
| GithubOrgs.GithubOrgs.New | src/github_orgs.rs:81-98 | one organisation per configured `GITHUB_ORG_<i>_NAME` up to the first gap; fails iff one is configured without a token |
| GithubOrgs.GithubOrgs.RunOrgAt | src/github_orgs.rs:102-107 | one organisation runs: its batch is its repositories' batches along its iteration order, and the others keep their repositories |
| GithubOrgs.GithubOrgs.RunAllRepos | src/github_orgs.rs:100-112 | the result is the concatenation of one batch per organisation, `None` when empty |
| GithubOrgs.GithubOrgs.UpdateRepoListing | src/github_orgs.rs:114-119 | no organisation loses a watched repository |
| GithubOrgs.GithubOrgs.Run | src/github_orgs.rs:40-52 | variation 1 refreshes listings and says nothing; any other variation but 0 says nothing and changes nothing |
| GithubOrgs.KeyOrder | src/github_orgs.rs:145 | an iteration order visits every key once |
| Common.LexLessTotal | src/webex.rs:121 | any two distinct creation dates are ordered one way or the other, so the sort is total |
| Webex.Insert | src/webex.rs:121 | inserting keeps every message |
| Webex.InsertSorted | src/webex.rs:121 | inserting into a sorted sequence keeps it sorted by creation date |
| Webex.SortByCreated | src/webex.rs:121 | sorting is a permutation |
| Webex.SortByCreatedSorted | src/webex.rs:121 | the result is sorted by creation date |
| Webex.FilterSorted | src/webex.rs:124-126 | filtering a sorted sequence keeps it sorted |
| Webex.UnreadSortedAndExact | src/webex.rs:111-138 | the first poll returns nothing; later ones return, sorted, exactly the fetched messages newer than the last seen date |
| Webex.SurvivorsSorted | src/webex.rs:120-126 | the retained messages are sorted |
| Webex.SurvivorsNewer | src/webex.rs:124-126 | every retained message is newer than the last seen date |
| Webex.WatermarkAfterKept | src/webex.rs:128-137 | the last seen date is set, never moves back, stays put when nothing is new, and is at least every retained date |
| Webex.WatermarkAdvances | src/webex.rs:111-138 | after any poll the last seen date is set, never moves back and covers every retained message |
| Webex.WebexAgent.constructor | src/webex.rs:25-31 | the authorisation header is "Bearer <token>", and no message has been seen |
| Webex.WebexAgent.SayGeneric | src/webex.rs:72-92 | a message to the room, as markdown or as text |
| Webex.WebexAgent.Say | src/webex.rs:63-65 | a plain-text message to the room |
| Webex.WebexAgent.SayMarkdown | src/webex.rs:67-70 | a markdown message to the room |
| Webex.WebexAgent.Respond | src/webex.rs:94-109 | a text reply threaded under the parent message |
| Webex.WebexAgent.Retain | src/webex.rs:124-126 | the loop keeps exactly the messages newer than the last seen date, in order |
| Webex.WebexAgent.UnreadMessages | src/webex.rs:111-140 | a failed fetch changes nothing; otherwise the unread messages and the next last seen date |
| Feeds.Announcement | src/feeds.rs:153-163 | nothing without an entry; otherwise one of the four texts by title and link |
| Feeds.AnnouncementMentions | src/feeds.rs:157-162 | an announcement names the feed, the entry's title when it has one, and its first link when there is one |
| Feeds.UpdateIsIdWatch | src/feeds.rs:110-122 | `update` is the version watch on entry ids: a report exactly when a remembered id changes, and the remembered entry is the last one fetched |
| Feeds.Feed.constructor | src/feeds.rs:102-108 | a new feed has no entry |
| Feeds.Feed.Update | src/feeds.rs:110-122 | a change is reported iff both entries exist and their ids differ; any fetched entry is remembered |
| Feeds.Feed.Announce | src/feeds.rs:153-163 | the announcement of the remembered entry |
| Feeds.FeedOutcome | src/feeds.rs:36-41 | a feed is announced iff its update reports a change, with the fetched entry |
| Feeds.Feeds.constructor | src/feeds.rs:75 | no feed |
| Feeds.Feeds.New | src/feeds.rs:74-91 | one feed per configured (name, URL) pair up to the first gap; it never fails |
| Feeds.Feeds.UpdateAt | src/feeds.rs:36-41 | one feed updates and the others keep their entries |
| Feeds.Feeds.Run | src/feeds.rs:34-50 | every feed updates once; the announcements of the changed ones, `None` when there is none |
| Feed.UpdateStep | src/feed.rs:24-36 | a change iff both entries exist with different ids, and the entry is remembered only on a change |
| Feed.NeverLeavesNone | src/feed.rs:24-36 | from a new feed, no history of fetches ever remembers an entry or reports a change |
| Feed.TwoEntriesCounterexample | src/feed.rs:24-36 | a new feed fetching two entries with different ids remembers nothing and reports nothing, while the feeds.rs update reports the second one |
| Feed.Feed.constructor | src/feed.rs:16-22 | a new feed has no entry |
| Feed.Feed.Update | src/feed.rs:24-36 | one `UpdateStep` |
| Feed.Feed.Announce | src/feed.rs:67-77 | the announcement of the remembered entry; nothing without one |
| Webpages.Webpage.constructor | src/webpages.rs:104-110 | a new page has no body |
| Webpages.Webpage.Changed | src/webpages.rs:112-143 | a failed fetch changes nothing; otherwise the body is stored and a change is reported iff there was a different stored body |
| Webpages.Webpages.constructor | src/webpages.rs:76 | no page |
| Webpages.Webpages.New | src/webpages.rs:75-93 | one page per configured (name, URL) pair up to the first gap; it never fails |
| Webpages.Webpages.ChangedAt | src/webpages.rs:40-44 | one page is checked, "[name](url) has changed" on a change, and the others keep their bodies |
| Webpages.Webpages.Run | src/webpages.rs:38-50 | every page is checked once; the messages of the changed ones, `None` when there is none |
| Roll.DiceWord | src/roll.rs:60-66 | the dice word is only found in a message containing "/roll" |
| Roll.Request | src/roll.rs:60-75 | an understood request has between 1 and 1000 dice with between 1 and 1000 faces, and only a message with a dice word is understood |
| Roll.NoRollNoRequest | src/roll.rs:60-66 | a message without "/roll" is not understood |
| Roll.DiceWordAfterRoll | src/roll.rs:60-66 | the word after "/roll " is the dice word |
| Roll.StandardRequest | src/roll.rs:60-75 | "/roll <count>d<faces>" with both between 1 and 1000 is understood as that request |
| Roll.NumbersAroundD | src/roll.rs:61-66 | a "<digits>d<digits>" word holds neither '/' nor ' ', so it survives both splits of the request |
| Common.ParseUsizeOfNatToString | src/roll.rs:70-71 | the decimal text of any number up to the usize maximum parses back to that number |
| Roll.Face | src/roll.rs:80 | every die shows a face between 1 and its number of faces |
| Roll.Rolls | src/roll.rs:78-84 | one face per die, in order |
| Roll.SumBounds | src/roll.rs:78-84 | the total of n dice with f faces is between n and n·f |
| Roll.PlusesIsJoinPlus | src/roll.rs:81-89 | the faces each followed by '+' are the faces joined by '+', then a '+' |
| Roll.RollsSnoc | src/roll.rs:78-84 | one more die adds its face to the total and to the listing |
| Roll.Gen | src/roll.rs:59-94 | nothing for a request that is not understood; otherwise the roll's text |
| Roll.DropLastPlus | src/roll.rs:87-89 | popping the trailing '+' leaves the joined faces |
| Roll.Throw | src/roll.rs:76-94 | "roll <n>d<f>: ", then "(<faces>) = " for 2 to 99 dice, then the total |
| Roll.RollDice | src/roll.rs:78-84 | the loop sums the faces and lists them each with a '+' |
| Roll.Trigger | src/roll.rs:40-43 | exactly one answer: the roll, or the help text when the request is not understood |
| Roll.Run | src/roll.rs:25-27 | the module never says anything on its own |
| Help.TriggerSetExactly | src/help.rs:20-28 | the known commands are exactly the trigger words of the offered modules |
| Help.CommandLinesListEach | src/help.rs:47-54 | the command list has a "- <command>" line for every command |
| Help.Help.constructor | src/help.rs:74-76 | no command known |
| Help.Help.ModuleOffering | src/help.rs:20-28 | every trigger word of every offered module becomes a known command |
| Help.Help.Trigger | src/help.rs:45-57 | one answer: the header then one line per known command, once each |
| Help.Help.Run | src/help.rs:30-32 | the module never says anything on its own |
| Help.AnswerListsEveryTrigger | src/help.rs:20-57 | the answer lists every trigger word of every offered module |
| Hello.HelloStep | src/hello.rs:21-34 | the first run is silent and marks the skip; later runs say one "quote — author" line drawn from the quotes |
| Hello.OnlyTheFirstRunIsSilent | src/hello.rs:21-34 | from a new module, the first run says nothing and every later run says exactly one quote |
| Hello.Hello.constructor | src/hello.rs:64-68 | the first run has not been skipped yet |
| Hello.Hello.Run | src/hello.rs:21-34 | one `HelloStep` |
| Hello.Hello.Trigger | src/hello.rs:45-47 | no answer to messages |
| Ping.Trigger | src/ping.rs:36-39 | every routed message is answered "pong" |
| Ping.CapabilitiesExactly | src/ping.rs:29-34 | the ping module answers only "/ping", catches nothing else and neither sends nor reads messages |
| Ping.Run | src/ping.rs:21-23 | the module never says anything on its own |
| Ping.ReadMessage | src/ping.rs:43-45 | the module has no messages to read |

## Left out

- HTTP requests, JSON and serde decoding, and the Webex and GitHub endpoints are not modelled. Their outcomes are parameters: an `Option` or `Result` per call, or a function from index or name to that outcome.
- Tokio tasks, the `RwLock` around each module, `sleep` and the channel are not modelled. The workers are described by `Bot.Bot.SpawnWorkers`, a mailbox post by `Bot.Post`, one broadcast step by `Bot.Bot.Broadcast`, and any interleaving of posts and polls by `Bot.MailboxIsFifo`. Cooldown timing and the lock contention between workers are not modelled.
- The modules' trait (`Module`) is not modelled as an interface. Its methods have different signatures in different files: `run` returns nothing in src/down_detectors.rs, src/endpoints.rs and src/outscale_api_versions.rs, and `trigger` takes an id there. Each module keeps the signature of its own file.
- `send_modules` (src/bot.rs:149-154) and `Bot::new` (src/bot.rs:110-127) are not modelled as calls over `dyn Module`. The offering is modelled per module (`Triggers.Triggers.ModuleOffering`, `Help.Help.ModuleOffering`), and each registration by `Bot.Bot.Register`.
- Triggers.Answer: a module's answers to a message are a fixed function of the module and the message. State a module changes between two `trigger` calls, such as the dice, is not carried through routing.
- The f32 sliding error rate (`error_rate_acc`, `error_rate`) and the "high error rate" warning are not modelled because they are floating point. Only the saturating u32 sample counter and the full-window gate are. `StatusLine` takes the rate as text.
- Logging (`trace!`, `info!`, `warn!`, `error!`) is not modelled.
- `calculate_hash` (`DefaultHasher`) is the parameter `hash`. Distinct releases may share a hash, exactly as they may in the source.
- `Release::is_too_old` (the clock and RFC 3339 parsing) is the predicate `tooOld`.
- feed-rs parsing and the date sort in `last_entry` are not modelled. `Update` takes the newest entry, or `None`, directly.
- The random quote choice (`choose`) is an index `pick` into the quotes. The dice rolls are `choice`, reduced to a face between 1 and the number of faces.
- The quote tables (src/hello_quotes.rs, src/rms_quotes.rs, and `ALL_QUOTES` in src/hello.rs) are a parameter `quotes`.
- src/ollama.rs, src/main.rs and src/utils.rs are not part of this model. `request_agent` failing is the boolean `agentOk`, or the `AgentInit` probe error.
- The environment is a `map<string, string>`. `to_uppercase` is ASCII upper-casing (`Common.ToUpper`); Unicode case mapping is not modelled.
- `HashMap` and `HashSet` iteration order is unspecified in the source. Where it decides the order of messages or help lines, the model returns a ghost enumeration of the keys and states results along it.
- Paging.FetchStrict, Paging.FetchPartial and every listing method built on them require a page, `last`, that ends the listing with fewer items than a page holds. The source loops forever on an endless listing, and the model does not describe that case.
- Liveness.AliveStep, Liveness.RunAlive, DownDetectors.DownDetector.UpdateAlive, DownDetectors.DownDetector.Alive, DownDetectors.DownDetectors.RunAlive, DownDetectors.DownDetectors.AliveAt, DownDetectors.DownDetectors.Run, Endpoints.Endpoint.UpdateAlive, Endpoints.Endpoint.Alive, Endpoints.Endpoints.RunAlive, Endpoints.Endpoints.AliveAt, Endpoints.Endpoints.Run, Osc.Endpoint.UpdateAlive and Osc.Endpoint.Alive store the computed failure count, or step through members that do. The source drops it (see Findings). These members model the evidently intended behaviour, and `Liveness.AliveStepAsWritten` models the code as written.
- GithubOrgs.GithubOrgs.RunAllRepos: states only that the result concatenates one batch per organisation. Each batch's relation to that organisation's repositories is stated by `GithubOrgs.GithubOrgs.RunOrgAt` one organisation at a time, and is not carried through the loop. The reason is that repositories of different organisations are not proved to be distinct objects.
- GithubOrgs.GithubOrgs.Run: for variation 0 states only what `GithubOrgs.GithubOrgs.RunAllRepos` states.
- GithubOrgs.GithubOrgs.UpdateRepoListing: states only that no organisation loses a repository. What each organisation gains is stated by `GithubOrgs.GithubOrg.UpdateRepoListing`.
- Github.Dispatches: applies the intended version check, with literal dots between the numbers. The source's pattern also accepts any separator (see Findings), so a tag such as "v1x2x3" is dispatched by the source but not by the model.
- Github.Github.CheckSpecificGithubRelease: decides its dispatches through `Github.Dispatches`, so the same intended check applies.
- Github.Github.GetGithubReleaseBody: applies the intended version check, so "v1x2x3" gives nothing here, while the source looks for a release of that name.
- Github.Semver: digits are the ASCII digits, in this predicate and so in Github.SemverIsVersion, Github.SemverOfVersion and every member above that checks versions. The regex crate's `\d` also matches other Unicode decimal digits, such as "v٣.٣.٣", which the source accepts and the model does not.
- Github.Github.GetGithubReleaseBody takes the listing of `get_specific_repos` as a parameter. When a repository's releases cannot be fetched, it does not record that repository in the cache, exactly as the source does not.
- The `trigger_version_github_action` request (src/github.rs:115-165) is not modelled. `Github.Dispatches` gives the tags it would be called with.
- The Webex `check` call and the `post`/`get` request builders are not modelled. `SayGeneric`, `Say`, `SayMarkdown` and `Respond` return the request they would post.

## Findings

| source | as written | input that shows it | evidently intended | confidence | as-written member | corrected member |
|---|---|---|---|---|---|---|
| src/down_detectors.rs:189-195 (same code at src/endpoints.rs:226-232 and src/osc.rs:113-119) | the new failure count is computed by the `match` and dropped; `access_failure_cnt` stays 0 | six failed probes in a row: the target should go down, but stays alive and no message is said | store the result in `access_failure_cnt`, giving the Schmitt trigger between 3 and 6 described in the comment | not executed | Liveness.SixFailuresCounterexample | Liveness.Hysteresis |
| src/github.rs:306-307 (same pattern at src/github.rs:442-443) | the pattern `^v\d{1,2}.\d{1,2}.\d{1,2}$` leaves the dots unescaped, so any character separates the numbers | "v1x2x3" passes the version check | `\.` so that only "v<a>.<b>.<c>" passes | not executed | Github.AsWrittenAcceptsAnySeparator | Github.SemverIsVersion |
| src/feed.rs:32-34 | the fetched entry is remembered only when a change is reported, and a change needs a remembered entry | a new feed fetching two entries with different ids remembers nothing and reports nothing | remember every fetched entry, as src/feeds.rs:118-120 does; nothing registers this `Feed` (src/main.rs:4 only declares `mod feed;`), so the bot as shipped never shows it | not executed | Feed.NeverLeavesNone | Feeds.UpdateIsIdWatch |
