# Verified model of ConsoleMe's policy and state logic

ConsoleMe turns self-service requests into IAM policies, lets command-line clients log in through challenge URLs,
keeps group-access requests, and caches what it knows of AWS. This project models those parts in Dafny and proves
what they keep. Each algorithm is written twice: as a method or class with the loops, fields and in-place updates of
the Python code, and as a function that the method is proved to compute. The theorems are about the functions and
state machines.

| files | subject |
|---|---|
| `Strings`, `Globs`, `Statements` | Python's string order and sorting; `fnmatch` beside IAM's own matching; statements and the requests they cover |
| `Normalization` | removal of superseded patterns, and exactly when it keeps the language of a list |
| `MergeLoops`, `Minimization`, `MinimizedRuns`, `MinimizedStatements`, `Minimizer` | the statement minimiser: its loops as a one-level merging forest, what each group of merged statements covers in the end, what the output statements look like key by key, and the in-place code |
| `NegatedMerges`, `MinimizedMeaning`, `MergeLimits`, `RepeatedMinimization` | what minimisation keeps of a policy's meaning, exactly when merged exclusions lose some of it, when it raises, and whether once is enough |
| `Changes`, `ChangesMeaning`, `ChangeCompiler` | the compiler from change generators to a policy |
| `Challenges`, `ChallengeSafety`, `ChallengeHistory` | the challenge-token login protocol over whole runs: its safety, read off a log, and when which call is answered what, in terms of the calls before it |
| `GroupRequests`, `GroupRequestIndex` | the group-request store and its per-user index |
| `TieredCache`, `CacheContents`, `CacheStaleness` | Redis over S3: which write an answer goes back to, how a read ends, and how old an answer can be |
| `Configuration`, `ConfigurationLaws` | deep merge of configurations, dotted keys, nesting of flat keys |
| `Organizations` | organisational units and service control policies |
| `ManagedPolicies` | managed-policy versions under AWS's limit of five |
| `DynamoEncoding` | the placeholder encoding for DynamoDB |

## What the code was found to do

* `fnmatch` applied to a pattern as text finds every containment of IAM patterns, and decides containment whenever no
  `*` of one can be consumed by a `?` of the other; where one can, it is wrong for `*` against `?` and right for `*?`
  against `?*`. Entries that match each other drop each other: `["*", "**"]` and `["*", "?"]` both normalise to
  nothing. On lists without bracket classes and without `*` beside `?`, normalisation keeps the language of the list if
  and only if every such pair lies strictly below a third entry. Literals with single stars never form such pairs, so on
  them nothing is lost. To `fnmatch` brackets are a class, to IAM they stand for themselves: of `["a", "[a]"]` only `[a]`
  is left, which does not cover `a`.
* Merging two `NotAction` or `NotResource` lists takes their union, so the merged statement covers only what all of its
  group covered. A kept statement keeps the meaning of its group if and only if whichever of the group covered anything
  had, once normalised, the lists of exclusions it ends with. So nothing is lost where no negated element is merged, or
  where the statements that can be merged exclude the same. The minimiser never grants more.
* Among well-formed statements that may also exclude principals, a merge raises a KeyError exactly when two statements
  agree except for a `NotPrincipal` that only one of them has.
* A list is shortened exactly if two of its statements differ in one element only once normalised; but the result can
  again hold two such, which minimising a second time would combine.
* The cache stamps data taken from S3 with the time of re-caching, so what a reader is given can be older than its own
  maximal age: by at most a given slack, over all runs of a set of readers, if and only if each of them that re-caches
  sets a maximal age which, with the time of one call, is within that slack. So the reader's own age suffices if and only
  if none re-caches, and there is a bound at all if and only if none re-caches without a maximal age.
* In a flat configuration an empty dictionary that comes after what belongs into it takes it away again. Entries read
  back if and only if all that lies above or below one that is no dictionary is an empty dictionary and comes before it.
* Compiling no changes raises an AttributeError, as do changes whose last names no user, and an S3 change without a
  prefix; changes whose last names no principal raise a ValidationError.
* Reading a dotted configuration key that runs through a value that is not a dictionary raises a TypeError instead of
  giving the default.

## Model

| member | source | states |
|---|---|---|
| Globs.FnmatchIsIamMatch | consoleme/lib/aws.py:1836 | Without bracket classes the library's match and IAM's match agree |
| Globs.TextMatchIsContainment | consoleme/lib/aws.py:1836 | A pattern matched as text by another matches nothing the other does not |
| Globs.TextMatchIffContained | consoleme/lib/aws.py:1836 | The supersession test finds every containment of languages, and decides it unless a `?` can consume a `*` |
| Globs.MixedPatternsGoEitherWay | consoleme/lib/aws.py:1836 | Where a `?` can consume a `*`, a pair on which the test is wrong and one on which it is right |
| Globs.TextMatchIsTransitive | consoleme/lib/aws.py:1836 | "Is superseded by" is transitive |
| Globs.TextMatchIsAntisymmetric | consoleme/lib/aws.py:1836 | Without adjacent stars, two patterns that supersede each other are equal |
| Globs.ClassMatches | consoleme/lib/aws.py:1836 | To `fnmatch` a class in brackets stands for any one of its characters |
| Globs.NegatedClassMatches | consoleme/lib/aws.py:1836 | With `!` for any one other |
| Globs.RangeMatches | consoleme/lib/aws.py:1836 | A range for any one between its ends |
| Globs.ClassesMislead | consoleme/lib/aws.py:1836 | IAM knows no classes, so an entry can be dropped for one that does not cover it |
| Strings.LessIff | consoleme/lib/aws.py:1841 | The order lists are sorted in: a proper beginning first, otherwise the first different character decides |
| Strings.LowerIs | consoleme/lib/aws.py:1827 | Lowering puts small letters for capital ones and leaves all else |
| Strings.SortedIsPermutation | consoleme/lib/generic.py:275-276 | Sorting loses no entry and repeats none |
| Normalization.DropSuperseded | consoleme/lib/aws.py:1831-1841 | The index loops keep, sorted and once each, exactly the entries no other entry matches |
| Normalization.NormalizeElements | consoleme/lib/aws.py:1814-1841 | The loop over the elements of one statement yields the normalised statement |
| Normalization.NormalizePolicies | consoleme/lib/aws.py:1807-1842 | The list is left, in place, with every statement normalised |
| Normalization.NormalListIsNormal | consoleme/lib/aws.py:1813-1842 | Any list normalises to a sorted one without duplicates in which no entry matches another, and again changes nothing |
| Normalization.NormalizedIs | consoleme/lib/aws.py:1813-1842 | Key by key: a filled element becomes the sorted list of those of its entries that no other matches; nothing else changes |
| Normalization.NormalizedTwice | consoleme/lib/aws.py:1807-1842 | Normalising a list of statements twice is normalising it once, whatever the patterns |
| Normalization.SomeSurvivorAbove | consoleme/lib/aws.py:1831-1841 | Every entry lies under one that survives, if mutually matching pairs are topped |
| Normalization.NormalizationKeepsLanguageIff | consoleme/lib/aws.py:1807-1842 | Normalisation keeps the strings a list matches if and only if mutually matching pairs are topped by a third entry |
| Normalization.NormalizationCanLoseEverything | consoleme/lib/aws.py:1832-1840 | Adjacent stars, and a `?` beside a `*`, can make a list normalise to nothing |
| Normalization.SingleStarsAreRegular | consoleme/lib/aws.py:1836 | Literals and single stars never supersede each other mutually |
| Normalization.NormalizedKeepsCoverage | consoleme/lib/aws.py:1807-1842 | A normalised statement covers the same requests, actions compared without case |
| MergeLoops.LoopsAreSound | consoleme/lib/aws.py:1750-1796 | The loops fail only for two items that may fail; else they end in a one-level forest of kin, each kept item with a trait only if its group had it, and if its group had it and was joined on elements that lose none |
| MergeLoops.KeptCount | consoleme/lib/aws.py:1798-1801 | The output has as many statements as the input less the absorbed |
| Minimization.MergeIsDefined | consoleme/lib/aws.py:1788-1795 | Merging well-formed statements reads no missing key |
| Minimization.MayMergeIff | consoleme/lib/aws.py:1766-1785 | What DeepDiff compares: two statements can be merged on an element, if one has something there, exactly when every other key is in both with the same text or the same entries, or in neither |
| Minimization.MergeMeaning | consoleme/lib/aws.py:1773-1796 | One merge gives the union of coverage for Action and Resource, the intersection for NotAction and NotResource, under unchanged terms |
| MinimizedRuns.MergingIsAForest | consoleme/lib/aws.py:1743-1803 | Each statement is kept or absorbed once into an earlier kept one with the same elements under equal terms; nothing raises; the counts agree |
| MinimizedRuns.KeptCoverage | consoleme/lib/aws.py:1750-1804 | Exactly what an output statement covers: what any of its group lists, and what none of its group excludes |
| MinimizedRuns.KeptCoversNoMore | consoleme/lib/aws.py:1750-1804 | Whatever an output statement covers, a statement of its group covered |
| MinimizedRuns.KeptCoversNoLess | consoleme/lib/aws.py:1750-1804 | An output statement that absorbed others on Action and Resource only covers all its group covered |
| MinimizedStatements.NoSidsLeft | consoleme/lib/aws.py:1752-1763 | With Sids disregarded no statement of the output has one |
| MinimizedStatements.OtherKeysAreKept | consoleme/lib/aws.py:1750-1804 | All statements of a group, and the output statement, agree in every key that is no element; in their Sids too, unless these are disregarded |
| MinimizedStatements.ElementsAreUnited | consoleme/lib/aws.py:1750-1804 | Whatever the patterns, an output statement lists under an element exactly what its group lists, each statement normalised, less what another of these entries matches |
| MinimizedStatements.OutputIsInOrder | consoleme/lib/aws.py:1798-1804 | The output is the kept statements, all of them, in the order of the input |
| MinimizedStatements.OutputIsSorted | consoleme/lib/aws.py:1798-1804 | Every list of the output is sorted, and normalising it again changes nothing |
| NegatedMerges.NormalListIsCanonical | consoleme/lib/aws.py:1807-1842 | Two values of an element normalise to one list if and only if they name the same strings |
| NegatedMerges.GroupKeepsMeaningIff | consoleme/lib/aws.py:1750-1804 | An output statement covers all its group covered if and only if whichever of the group covered anything had, once normalised, the exclusions it ends with |
| NegatedMerges.GroupKeepsMeaningIffListsAgree | consoleme/lib/aws.py:1750-1804 | Where every statement of the group covers something: if and only if all of them listed the same exclusions once normalised |
| MinimizedMeaning.PlainPatternsAreRegular | consoleme/lib/aws.py:1824-1836 | Requests written with literals and single stars meet the condition of the meaning theorems |
| MinimizedMeaning.MinimizedCoverage | consoleme/lib/aws.py:1729-1804 | Exactly what the output covers under every effect, condition and account limit, negated elements included, in terms of the groups of input statements |
| MinimizedMeaning.MinimizedNeverGrantsMore | consoleme/lib/aws.py:1729-1804 | Under every effect, condition and account limit the output covers nothing the input did not, negated elements included |
| MinimizedMeaning.MinimizedKeepsMeaning | consoleme/lib/aws.py:1729-1804 | Under every effect, condition and account limit the output covers exactly what the input did, where each group keeps its exclusions |
| MinimizedMeaning.ListedMergesKeepExclusions | consoleme/lib/aws.py:1766-1796 | That is so where no statement was absorbed on NotAction or NotResource |
| MinimizedMeaning.SameExclusionsAreKept | consoleme/lib/aws.py:1766-1796 | And where any two input statements with the same elements under equal terms exclude the same, as when they differ in Resource only |
| MinimizedMeaning.PositiveKeepsExclusions | consoleme/lib/aws.py:1729-1804 | And where statements use Action and Resource only |
| MinimizedMeaning.MinimizedKeepsMeaningIff | consoleme/lib/aws.py:1729-1804 | A list that ends with one statement per effect, condition and account limit keeps its meaning if and only if each group keeps its exclusions |
| MinimizedMeaning.MinimizedKeepsDecisions | consoleme/lib/aws.py:1729-1804 | No deny-overrides decision changes, whichever terms apply |
| MergeLimits.MergeFailsIff | consoleme/lib/aws.py:1773-1795 | Two statements that may exclude principals raise KeyError on meeting exactly when they agree but for a NotPrincipal only one of them has |
| MergeLimits.MinimizedFailsOnlyFor | consoleme/lib/aws.py:1729-1804 | A whole list of such statements raises nothing but KeyError, and only if it holds two that differ so |
| MergeLimits.PairFailsIff | consoleme/lib/aws.py:1729-1804 | On two statements the minimiser raises exactly when they so differ once normalised |
| MergeLimits.ExcludedPrincipalsRaise | consoleme/lib/aws.py:1788-1795 | Two statements on which it raises |
| MergeLimits.PairKeepsMeaningIff | consoleme/lib/aws.py:1766-1796 | Two statements merged on whatever element keep their meaning if and only if their exclusions were equal once normalised |
| MergeLimits.ExcludedActionsLose | consoleme/lib/aws.py:1766-1796 | Two NotAction statements and a request granted before and not afterwards |
| MergeLimits.ExcludedResourcesLose | consoleme/lib/aws.py:1766-1796 | Two NotResource statements and a request granted before and not afterwards |
| RepeatedMinimization.ShortensNothingIff | consoleme/lib/aws.py:1729-1804 | The promise of the documentation: a list is shortened exactly if two of its statements, once normalised, agree outside one element, and outside the Sid where Sids are disregarded |
| RepeatedMinimization.AllCombinedIff | consoleme/lib/aws.py:1729-1804 | The output holds no two such statements exactly if minimising it again shortens nothing |
| RepeatedMinimization.OnceIsNotEnough | consoleme/lib/aws.py:1750-1804 | Three statements that become two which still differ in one element only |
| RepeatedMinimization.OnceIsNotEnoughForThese | consoleme/lib/aws.py:1750-1804 | Three such statements, concretely |
| Minimizer.SortStatement | consoleme/lib/generic.py:261-282 | Every list of a statement is sorted, nothing else changes |
| Minimizer.FindElement | consoleme/lib/aws.py:1766-1785 | The first element on which two statements can be merged |
| Minimizer.AbsorbLater | consoleme/lib/aws.py:1757-1796 | The inner loop, in place, with its exclusion list and its exception; where Sids are disregarded it takes them from every later statement not excluded before |
| Minimizer.MergeStatements | consoleme/lib/aws.py:1750-1796 | The outer loop, in place; where Sids are disregarded it leaves none |
| Minimizer.CollectKept | consoleme/lib/aws.py:1798-1801 | The statements not excluded, sorted, in order |
| Minimizer.MinimizeIamPolicyStatements | consoleme/lib/aws.py:1729-1804 | The in-place code computes the function the theorems are about, and returns no Sid where Sids are disregarded |
| Changes.RequestedActionsHold | consoleme/lib/change_request.py:162-181 | The list of actions holds exactly the permissions of the named groups and the extra actions |
| Changes.RequestedArnsHold | consoleme/lib/change_request.py:208-220 | The list of resources holds exactly the ARNs asked for, for S3 each bucket and each bucket with its prefix |
| Changes.BucketArnsAre | consoleme/lib/change_request.py:210-220 | For each bucket, in order: the text itself or, where it is no ARN, that text made one; and after it the prefix behind one slash |
| Changes.BareBucketAndPrefix | consoleme/lib/change_request.py:210-220 | A bare bucket name with a prefix without a slash: the bucket and the folder are asked for, and nothing else |
| ChangesMeaning.GeneratedHasTerms | consoleme/lib/change_request.py:50-57 | A generated statement has the effect, the condition and the account limits of its change, and no others |
| ChangesMeaning.StatementsGrantWhatIsAsked | consoleme/lib/change_request.py:184-344 | The statement of a change covers exactly what the change asks for, under its effect, condition and account limits |
| ChangesMeaning.AcceptedIff | consoleme/lib/change_request.py:440-463 | Statements pass the check exactly when each is empty or has an action, a resource and an effect |
| ChangesMeaning.UsableIff | consoleme/lib/change_request.py:162-463 | A change yields accepted statements exactly when its type is configured and it brings an ARN, an effect, for S3 a prefix, for access levels a service, and an action or a group with permissions; a custom one, when each statement has its three elements |
| ChangesMeaning.GatherAllIff | consoleme/lib/change_request.py:412-463 | Gathering succeeds exactly on usable changes naming one user and one principal, and holds on to those of the last change |
| ChangesMeaning.GatheredIff | consoleme/lib/change_request.py:412-463 | So for a whole request: every change usable, and after one that names a user, or a principal, all name the same |
| ChangesMeaning.TurnRaises | consoleme/lib/change_request.py:162-463 | What is raised on meeting a change for another user or principal, or one that is not usable, by what it lacks |
| ChangesMeaning.GatherAllGrows | consoleme/lib/change_request.py:412-463 | Of several such changes the first decides |
| ChangesMeaning.GatheredInOrder | consoleme/lib/change_request.py:412-463 | Statements are gathered in the order of the changes, without empty ones |
| ChangesMeaning.CompiledIsExact | consoleme/lib/change_request.py:395-480 | The compiler succeeds exactly on requests with changes, all usable, naming one user and one principal; the final policy covers a request only if some change asks for it; and if, unless custom statements that exclude different things were merged |
| ChangesMeaning.MissingNamesRaise | consoleme/lib/change_request.py:412-480 | What is raised without changes, without a user and without a principal |
| ChangesMeaning.MissingPrefixRaises | consoleme/lib/change_request.py:217-218 | An S3 change with a bucket and no prefix raises an AttributeError |
| ChangesMeaning.CompiledHasNewSids | consoleme/lib/change_request.py:347-474 | Every statement of the proposed policy is one of the minimised ones with a Sid made for it; Sids that came along are gone |
| ChangesMeaning.PlainRequestIsRegular | consoleme/lib/change_request.py:162-282 | Changes written with literals and single stars meet the condition on patterns, whatever is made of them on the way |
| ChangesMeaning.CompiledFromPlainIsExact | consoleme/lib/change_request.py:395-480 | On such changes without excluding custom statements, the compiler is exact both in success and in coverage |
| ChangeCompiler.SettledAsksTheSame | consoleme/lib/change_request.py:208-220 | Listing the ARN and slashing the prefix in place changes nothing a change asks for |
| ChangeCompiler.LeftBehindIs | consoleme/lib/change_request.py:208-220 | A change that was accepted is left with its ARN as a list and, for S3, a prefix that starts with a slash, and otherwise as it was |
| ChangeCompiler.LeftBehindTwice | consoleme/lib/change_request.py:208-220 | A generator as the code leaves it yields the same statements again, and is then left unchanged |
| ChangeCompiler.CollectGroupActions | consoleme/lib/change_request.py:172-176 | The nested loops collect the permissions of every group named |
| ChangeCompiler.GetActionsFromGroups | consoleme/lib/change_request.py:162-181 | The same, with the error when nothing is found |
| ChangeCompiler.GetAccessLevelActions | consoleme/lib/change_request.py:146-159 | The loop over access levels |
| ChangeCompiler.ChangeGenerator.ListResourceArn | consoleme/lib/change_request.py:208-209 | A single ARN becomes a list in the generator |
| ChangeCompiler.ChangeGenerator.BucketArnLoop | consoleme/lib/change_request.py:211-220 | The loop over buckets yields every ARN twice and with the first gives the stored prefix its slash, or raises on an absent prefix |
| ChangeCompiler.ChangeGenerator.GenerateS3Statement | consoleme/lib/change_request.py:184-227 | The S3 statement or the error, and the ARNs and prefix the generator is left with |
| ChangeCompiler.ChangeGenerator.GenerateMappedStatement | consoleme/lib/change_request.py:243-282 | The statement from an action map or the error |
| ChangeCompiler.ChangeGenerator.GenerateCrudStatement | consoleme/lib/change_request.py:285-318 | The statement from access levels or the error |
| ChangeCompiler.ChangeGenerator.GenerateStatements | consoleme/lib/change_request.py:321-344 | The statements of a change by its type |
| ChangeCompiler.ChangeGenerator.AcceptStatements | consoleme/lib/change_request.py:440-463 | The checking loop, which lists the ARN once a statement is accepted |
| ChangeCompiler.ChangeGenerator.TakeTurn | consoleme/lib/change_request.py:412-463 | One turn of the loop over the changes, and how it leaves the generator |
| ChangeCompiler.Propose | consoleme/lib/change_request.py:465-480 | What follows the loop, with the exceptions for a missing user and a missing principal |
| ChangeCompiler.AttachSids | consoleme/lib/change_request.py:347-360 | Statements without a Sid are given one |
| ChangeCompiler.GenerateChangeModelArray | consoleme/lib/change_request.py:395-480 | The in-place loop computes the compiled policy, even when a generator occurs twice, and how it leaves each generator |
| Challenges.ChallengeService.DeleteExpiredChallenges | consoleme/lib/challenge.py:14-25 | Exactly the tokens whose time ended before now are removed, and no other is changed |
| Challenges.ChallengeService.RetrieveUserChallenge | consoleme/lib/challenge.py:28-62 | The challenge, or why it is refused |
| Challenges.ChallengeService.GenerateChallenge | consoleme/handlers/v2/challenge.py:38-68 | One protocol step: a pending challenge for two minutes |
| Challenges.ChallengeService.ViewChallenge | consoleme/handlers/v2/challenge.py:89-184 | One protocol step: the first view sets a nonce |
| Challenges.ChallengeService.ApproveChallenge | consoleme/handlers/v2/challenge.py:186-266 | One protocol step: the right nonce marks success |
| Challenges.ChallengeService.PollChallenge | consoleme/handlers/v2/challenge.py:277-332 | One protocol step: a JWT once, or expiry |
| ChallengeSafety.StepKeeps | consoleme/handlers/v2/challenge.py:38-332 | Every handler call keeps the hash in exact agreement with the log of events |
| ChallengeSafety.RunIsConsistent | consoleme/handlers/v2/challenge.py:38-332 | So does every run in which tokens are drawn fresh: user, IP and ttl never change, the nonce is set once |
| ChallengeSafety.IssuedHasFullHistory | consoleme/handlers/v2/challenge.py:45-330 | Behind every JWT lie the making, the showing and the approval of its token, by that user, with that nonce, from that IP, in time; its groups are the last approval's |
| ChallengeSafety.AtMostOneJwt | consoleme/handlers/v2/challenge.py:307-330 | A token yields at most one JWT in a run |
| ChallengeSafety.ConsumedNeverReappears | consoleme/handlers/v2/challenge.py:292-330 | A consumed or removed token never comes back |
| ChallengeSafety.PollIssuesIff | consoleme/handlers/v2/challenge.py:277-332 | A poll yields a JWT exactly when the history allows it |
| ChallengeHistory.PurgeIs | consoleme/lib/challenge.py:14-25 | A purge takes away a token exactly if its time ended before it |
| ChallengeHistory.RunReflectsCalls | consoleme/handlers/v2/challenge.py:38-332 | At every point of a run a token is stored exactly if a call made it and none since was given a JWT for it or found it older than two minutes; and its entry says what those calls were answered |
| ChallengeHistory.ViewShowsIff | consoleme/handlers/v2/challenge.py:89-184 | The nonce is shown exactly to the user the token was made for, within two minutes, if not shown before, and from the same IP where that is asked |
| ChallengeHistory.ApproveNotesIff | consoleme/handlers/v2/challenge.py:186-266 | An approval is taken exactly from that user, within two minutes, with the nonce that was shown, and from the same IP where that is asked |
| ChallengeHistory.PollYieldsIff | consoleme/handlers/v2/challenge.py:277-332 | A JWT is given exactly from the IP the token was made from, within two minutes, after an approval, once; for its user, with the groups of the last approval |
| ChallengeHistory.ViewIsAnswered | consoleme/handlers/v2/challenge.py:89-184 | Every answer of a view, in the order of the checks |
| ChallengeHistory.ApproveIsAnswered | consoleme/handlers/v2/challenge.py:186-266 | Every answer of an approval, in the order of the checks |
| ChallengeHistory.PollIsAnswered | consoleme/handlers/v2/challenge.py:277-332 | Every answer of a poll |
| ChallengeHistory.LoginSucceeds | consoleme/handlers/v2/challenge.py:38-332 | Whoever makes, views, approves and polls a token by the rules and in time is given a JWT |
| ChallengeHistory.LogKeepsToAnswers | consoleme/handlers/v2/challenge.py:38-332 | The log of the safety theorems gains exactly what a call was answered, and what was taken away for its age |
| ChallengeHistory.DrawnOnceIsFresh | consoleme/handlers/v2/challenge.py:45 | Calls that never draw a token twice meet the condition of the safety theorems |
| GroupRequests.UserDynamoHandler.LoadUser | consoleme/lib/dynamo.py:867-889 | The cached user is replaced, and created if unknown |
| GroupRequests.UserDynamoHandler.ResolveRequestIds | consoleme/lib/dynamo.py:891-908 | The rows of the ids, or the exception on the first missing one |
| GroupRequests.UserDynamoHandler.FilterRows | consoleme/lib/dynamo.py:1064-1071 | The rows of the group and status asked for |
| GroupRequests.UserDynamoHandler.GetRequestsByUser | consoleme/lib/dynamo.py:1040-1074 | One lookup step |
| GroupRequests.UserDynamoHandler.AddRequestIdToUser | consoleme/lib/dynamo.py:910-918 | The id is appended in the cached user and in the table |
| GroupRequests.UserDynamoHandler.AddRequest | consoleme/lib/dynamo.py:920-1015 | One adding step, refused when a pending request exists |
| GroupRequests.UserDynamoHandler.PutRowsOfGroup | consoleme/lib/dynamo.py:1110-1125 | The rows of the group are written back reviewed |
| GroupRequests.UserDynamoHandler.ChangeRequestStatus | consoleme/lib/dynamo.py:1076-1136 | One reviewing step with its four exceptions |
| GroupRequests.UserDynamoHandler.ChangeRequestStatusById | consoleme/lib/dynamo.py:1138-1177 | One reviewing step by id |
| GroupRequestIndex.LookupIsDirectFilter | consoleme/lib/dynamo.py:891-908 | Resolving a user's ids never fails, and a lookup equals a direct filter of the table |
| GroupRequestIndex.LookupIsExact | consoleme/lib/dynamo.py:1040-1074 | A lookup gives exactly the rows asked for, once each and in the order of the user's list, and turns the handler to that user |
| GroupRequestIndex.AddIsExact | consoleme/lib/dynamo.py:968-1015 | Adding is refused exactly when the user has a pending request for the group; else exactly one row is added, with every field it was given, and its id at the end of the user's list |
| GroupRequestIndex.ChangeStatusIsExact | consoleme/lib/dynamo.py:1076-1136 | Exactly that user's rows for that group take status, reviewer, time and comments of the review and keep the rest; the last of them is returned; which exception is raised when, and for want of rows exactly when there are none |
| GroupRequestIndex.ChangeStatusByIdIsExact | consoleme/lib/dynamo.py:1138-1177 | The same for the one row named by its id, with users and all other rows unchanged |
| GroupRequestIndex.StepKeepsIndex | consoleme/lib/dynamo.py:867-1177 | Every operation keeps each user's ids an exact index without repeats |
| GroupRequestIndex.StepKeepsOnePending | consoleme/lib/dynamo.py:979-1003 | No operation that does not reopen makes a second pending request |
| GroupRequestIndex.RunKeepsIndex | consoleme/lib/dynamo.py:867-1177 | Both hold after every run through one handler |
| GroupRequestIndex.OpenedIsIndexed | consoleme/lib/dynamo.py:867-889 | A handler opened over exactly indexed tables, for a known or a new user, starts with the invariant |
| GroupRequestIndex.HandlerKeepsIndex | consoleme/lib/dynamo.py:867-1177 | So from opening on, over every run |
| TieredCache.Cache.Store | consoleme/lib/cache.py:65-103 | Both tiers hold the data stamped with the time of storing |
| TieredCache.Cache.Retrieve | consoleme/lib/cache.py:142-196 | The staged fallback, its exceptions, and the re-caching |
| CacheContents.S3HoldsLastProduced | consoleme/lib/cache.py:91-103 | Over every run S3 holds under a location the last production there, stamped with its time |
| CacheContents.RedisHoldsLastWritten | consoleme/lib/cache.py:77-89 | Over every run Redis holds under a key the last production or re-caching there, stamped with its time |
| CacheContents.ReadEndsIff | consoleme/lib/cache.py:142-196 | Exactly when a read is served from Redis, from S3, by its default, or raises which exception, in terms of the operations before it |
| CacheContents.ServedWasProduced | consoleme/lib/cache.py:142-196 | Whatever is served from either tier was produced before, at the time it is dated |
| CacheStaleness.RunKeepsFresh | consoleme/lib/cache.py:65-196 | Over every run S3 stamps are production times and Redis stamps lag by at most the slack re-caching readers allow |
| CacheStaleness.StalenessIsBounded | consoleme/lib/cache.py:152-193 | What a reader is given is older than its own maximal age by at most the greatest of a re-caching reader and one call (so twice the age where all are equal); straight from S3, not at all |
| CacheStaleness.BoundIsAttained | consoleme/lib/cache.py:152-190 | For every reader and every re-caching one some run attains the bound |
| CacheStaleness.UncheckedReaderVoidsTheBound | consoleme/lib/cache.py:152-190 | With one reader that re-caches without a maximal age, what others are given can be of any age |
| CacheStaleness.WithinIff | consoleme/lib/cache.py:142-196 | Readers are given data at most so much older than they allow, over all their runs, if and only if every one that re-caches leaves room for it |
| CacheStaleness.OwnAgeSufficesIff | consoleme/lib/cache.py:184-190 | Nothing older than they allow, if and only if none re-caches |
| CacheStaleness.SomeBoundIff | consoleme/lib/cache.py:152-190 | Any bound, if and only if none re-caches without a maximal age |
| Configuration.DictMerge | consoleme/config/config.py:32-45 | The loop over the second dictionary computes the deep merge |
| Configuration.Get | consoleme/config/config.py:244-254 | The walk along a dotted key: value, default or TypeError |
| Configuration.MergeExtendedPaths | consoleme/config/config.py:159-180 | The loop and recursion over extended files, named by a list, a text or the keys of a dictionary |
| Configuration.UpdateNestedDict | scripts/config/generate.py:149-156 | Splitting the key as it goes, it assigns under the whole path, with a TypeError or an AttributeError where no dictionary is |
| Configuration.GenerateConsolemeStyleConfig | scripts/config/generate.py:159-170 | The loop over the flat configuration |
| ConfigurationLaws.MergeLookup | consoleme/config/config.py:32-45 | What the merge holds at every path, in terms of both dictionaries |
| ConfigurationLaws.LookupOrBlocked | consoleme/config/config.py:244-254 | Reading ends in the value that is there, a TypeError exactly where something else than a dictionary is in the way, and else the default |
| ConfigurationLaws.DottedReadCanRaise | consoleme/config/config.py:244-254 | A configuration and a key that raise, and a key that does not |
| ConfigurationLaws.ExtendsByShape | consoleme/config/config.py:159-180 | Which files a file names, by what stands under `extends` |
| ConfigurationLaws.OneFile | consoleme/config/config.py:159-180 | A missing file changes nothing; another is merged in, and then those it extends |
| ConfigurationLaws.ExtendedIsLayered | consoleme/config/config.py:159-180 | Extending merges in the files in depth-first order |
| ConfigurationLaws.ExtendingKeepsLeaves | consoleme/config/config.py:159-180 | No extended file ever changes a leaf already set |
| ConfigurationLaws.FirstFileDecides | consoleme/config/config.py:159-180 | A leaf of the result is the main file's, or that of a file, however deep it was reached, before which nothing was at its path or in its way; and conversely |
| ConfigurationLaws.PutSucceedsIff | scripts/config/generate.py:149-156 | Assigning fails exactly where a value that is no dictionary is in the way |
| ConfigurationLaws.PutFailsWith | scripts/config/generate.py:149-156 | A TypeError where the value in the way would have to hold the last key, else an AttributeError |
| ConfigurationLaws.PutLookup | scripts/config/generate.py:149-156 | Assigning changes the tree at and below its path only |
| ConfigurationLaws.OneEntry | scripts/config/generate.py:159-170 | Built alone, an entry reads back unless its key starts with two underscores or its value is an empty text or list, of which nothing comes |
| ConfigurationLaws.BuiltIff | scripts/config/generate.py:159-170 | Whatever the entries hold, building succeeds exactly if each finds no leaf in its way, and then every path holds what was written there last |
| ConfigurationLaws.ReadsBackIff | scripts/config/generate.py:159-170 | Any entries read back exactly if each finds its way clear and what is no dictionary is written there last |
| ConfigurationLaws.RoundTripIff | scripts/config/generate.py:159-170 | Answers, with empty dictionaries among them, read back exactly if all that lies above or below one that is no dictionary is an empty dictionary before it |
| ConfigurationLaws.LateDictionaryErases | scripts/config/generate.py:149-170 | Two entries that read back in one order, and in the other do not |
| ConfigurationLaws.StrangerReadsDefault | consoleme/config/config.py:244-254 | Whatever the entries hold, a key on no kept path reads as the default |
| Organizations.IsMemberOfOu | consoleme/lib/aws.py:1656-1675 | The recursive loop with its carried path variable |
| Organizations.GetOrganizationalUnitsForAccount | consoleme/lib/aws.py:1678-1692 | The units of the first organisation that knows the identifier |
| Organizations.ScpTargetsAccountOrOu | consoleme/lib/aws.py:1695-1708 | Whether some target is the identifier or one of the units |
| Organizations.GetScpsForAccountOrOu | consoleme/lib/aws.py:1711-1726 | The nested loops select, in order, every policy that targets |
| Organizations.SearchFindsTheReachable | consoleme/lib/aws.py:1656-1675 | The search finds an identifier exactly when units lead to it |
| Organizations.SearchReturnsTheWay | consoleme/lib/aws.py:1656-1675 | Reached in one way only, the set returned is what lies on that way |
| Organizations.SearchReturnsFirst | consoleme/lib/aws.py:1656-1675 | Reached in several ways, it returns what lies on the first |
| Organizations.FirstOrganizationDecides | consoleme/lib/aws.py:1678-1692 | Known to several organisations, the first decides |
| Organizations.UnitsAreThoseAbove | consoleme/lib/aws.py:1678-1692 | With unique ids the units are exactly the identifier's ancestors |
| Organizations.SelectionIsExact | consoleme/lib/aws.py:1695-1726 | The policies selected are exactly those targeting the identifier or an ancestor |
| Organizations.SelectionIsInOrder | consoleme/lib/aws.py:1711-1726 | Every place among the policies that holds such a one is selected once, organisation by organisation and in order |
| ManagedPolicies.ManagedPolicy.UpdateManagedPolicy | consoleme/lib/aws.py:97-139 | The loop over the versions, the deletion and the creation |
| ManagedPolicies.StepKeepsDefault | consoleme/lib/aws.py:112-139 | The version in force is never deleted and five versions are never exceeded |
| ManagedPolicies.UpdateIsExact | consoleme/lib/aws.py:112-139 | Exactly which versions an update leaves, whichever is in force: of five the oldest goes, or the one listed after it if that is in force |
| ManagedPolicies.RunStaysSound | consoleme/lib/aws.py:112-139 | So over every run, with rollbacks in between |
| ManagedPolicies.OldestIsPopped | consoleme/lib/aws.py:114-132 | With the newest in force, the oldest is the one deleted |
| ManagedPolicies.RunKeepsMostRecent | consoleme/lib/aws.py:112-139 | Left to updates, the versions kept are always the most recent five of all there ever were |
| DynamoEncoding.RoundTripIff | consoleme/lib/dynamo.py:93-153 | Decoding the encoding returns the value, type and all, exactly for values without placeholder, reserved keys, floats, decimals, times or wrapped binaries |
| DynamoEncoding.EncodedIsStored | consoleme/lib/dynamo.py:127-153 | What is stored of any value, key by key and item by item |
| DynamoEncoding.WhatComesBack | consoleme/lib/dynamo.py:93-153 | What comes back of any value: without reserved keys, placeholders emptied, other numbers and times cut to integers, binaries unwrapped |
| DynamoEncoding.DecodingIsIdempotent | consoleme/lib/dynamo.py:93-125 | Decoding twice is decoding once |
| DynamoEncoding.EncodingIsStorable | consoleme/lib/dynamo.py:127-153 | What is encoded holds no empty string, no reserved key and no plain number |

## Assumptions

* A handler call is one atomic step. The poller awaits between reading a challenge and deleting it
  (consoleme/handlers/v2/challenge.py:312), so two polls can in truth overlap there.
* UUIDs are never drawn twice; the clock is an input.
* One `UserDynamoHandler` serves a run, constructed with a user. Several handlers can hold stale cached users.
* Conditions, principals and account lists are opaque: texts compared for equality, lists compared without order.
  DeepDiff is equality of the remaining fields in that sense. Substitution inside a condition has been done.
* A key that is absent, None or empty where the code only asks for truth is one empty value: the effect, the condition,
  the extra actions and the account limits of a change. Its user, principal, ARN, prefix, groups and service can be
  absent.
* Every configured group of actions has its list of permissions.
* A maximal age is not negative.
* Every extended file holds a dictionary, and the lists of a configuration are lists of texts. In what order a
  dictionary gives its keys is left open.
* Two values are equal only if their types are: 1.0 and Decimal(1), which Python compares equal, are different.
* Where Python makes a list of a set, the order is either left open or fixed to the sorted one.
* `fnmatch` is the one of a case-sensitive platform, and `lower` acts on ASCII letters.

## Left out

- NormalizationKeepsLanguageIff: speaks of lists without bracket classes and without a `*` beside another entry's `?`; for mixed lists only the losing examples are given, because containment of such patterns in a union has no simple test.
- MinimizedKeepsMeaning: its condition on exclusions is exact for each kept statement (GroupKeepsMeaningIff) and for lists that end with one statement per terms (MinimizedKeepsMeaningIff); for other lists it is sufficient only, because another statement may happen to cover what a merge loses. What the output covers is stated exactly for all of them (MinimizedCoverage).
- MinimizedFailsOnlyFor: one way, because whether two statements of a longer list still differ when they meet depends on what was merged before; for two statements PairFailsIff is exact.
- CompiledIsExact: custom statements are taken to be well formed; the others need no condition but that on patterns.
- NotPrincipal: it is normalised and merged as in the code, but its meaning is not modelled; as a dictionary it is not representable.
- Sharing of one statement dictionary between two places of a list: statements are values in an array, so an update through one place does not show in the other. For the same reason the second normalisation shows in the returned list, not in the caller's.
- In-place merging of nested configuration dictionaries: trees are values, returned rather than mutated; likewise the deletion of reserved keys from the caller's dictionary before encoding.
- Unbounded recursion between files that extend each other: the model stops at a given depth and then promises nothing.
- Ranges written backwards in a bracket class, on which some Python versions raise: the model lets them match nothing.
- Signatures, JWT encoding, hashes and resource models: opaque or dropped. The cached results of `get_requests_by_user`, deletion and update of users are not modelled.
- Hash-typed cache entries and the bulk retrieval from S3: a hash overlays old fields, which has no single age.
- AWS, identity-provider, mail and chat clients, Tornado plumbing, Celery tasks, the policy-request state machine and the user interface.
