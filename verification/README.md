# Verification of the in-memory engines of ai-provider

The AI provider platform keeps several engines in memory: role inheritance with a permission
cache, the hand-written claims codec of its tokens, an event-sourced change tracker, a failover
manager, analytics with regression and percentiles, a load balancer, a batch processor and access
control lists. This project models them in Dafny and proves what they promise, over all inputs and
all runs.

Each engine comes in two parts. A specification part, over values, defines states, steps and
answers, and holds the theorems. An imperative part has the program's own form: classes whose
methods update fields, arrays sorted in place, loops that accumulate. Every method is proved to
compute what the specification says, so the theorems are about the methods.

| file | models |
|---|---|
| `Wrappers.dfy`, `Graph.dfy`, `ResourceKeys.dfy` | optional values; directed graphs; keys made of type and ID |
| `RoleGraph.dfy`, `RoleListings.dfy`, `RoleDepth.dfy` | the three walks over the role graph; the order of parents; what storing a role does to the roles below it (`authz/rbac.go`) |
| `RbacManager.dfy`, `RoleStoreLaws.dfy`, `RbacAssignments.dfy` | the role manager with its cache; what each operation does to roles and permissions; what runs do to assignments, and with them to roles held and answers (`authz/rbac.go`) |
| `Permissions.dfy` | the permission dependency graph (`authz/permissions.go`) |
| `Acl.dfy`, `AclStore.dfy`, `AclLaws.dfy` | evaluation of access control lists; their store and principal index; what both mean for entries and requests (`authz/acl.go`) |
| `Base64.dfy`, `ClaimsJson.dfy`, `ClaimsRoundTrip.dfy`, `ClaimsForms.dfy` | the base64url decoder; the claims printer and parser; when claims come back; how text that was not printed is read (`auth/jwt.go`) |
| `ChangeStore.dfy`, `ChangeQuery.dfy`, `ChangeStoreLaws.dfy` | the change store and its indexes; queries; what runs keep and queries return (`audit/tracker.go`) |
| `ChangeReplay.dfy`, `DiffLaws.dfy` | recording, replay and revert; what diffs tell and undo (`audit/tracker.go`) |
| `Failover.dfy`, `FailoverLaws.dfy` | the failover manager; what each operation does to the nodes and the log (`ha/failover.go`) |
| `LoadBalance.dfy`, `SelectionLaws.dfy` | the load balancer; which backend each algorithm selects (`ha/loadbalance.go`) |
| `Sorting.dfy`, `MapOrder.dfy`, `Grouping.dfy`, `PartFolds.dfy`, `Splitting.dfy` | the exchange sort that several engines share; ranging over a map in arbitrary order; grouping by a key; folding the parts of a partition; splitting and joining strings |
| `Statistics.dfy`, `Aggregation.dfy`, `SeriesLaws.dfy`, `GroupKeys.dfy`, `AggregationLaws.dfy`, `Trends.dfy` | percentiles; the query pipeline; what the statistics of a series mean; when points share a group; what the pipeline preserves; regression (`analytics/engine.go`, `analytics/trends.go`) |
| `Batch.dfy`, `BatchLaws.dfy`, `Batching.dfy` | worker interleavings of one batch; what is executed and shown on the way; grouping of requests (`inference/batch.go`) |

`dafny verify dfyconfig.toml` checks everything.

Conventions: repositories are finite maps, a clock reading is a parameter, Go's iteration over a map
is an arbitrary order of its keys, `float64` is `real`, and Go's zero time is time 0.

Where the code does less than its names and comments suggest, the model follows the code and says
exactly when the expectation holds: `WalksAgree`, `AgreementAfterIff`, `AgreementWithoutIff`,
`RunAgreementIff`, `RunShallowIff`, `AcceptedInEveryOrderIff`, `ListRoundTrip`, `ObjectRoundTrip`,
`EveryOrderRoundTrip`, `ResourceLookupIff`, `LookupIsHistoryIff`, `UserLookupExact`, `PageIsSlice`,
`RevertRestores`, `GroupsShareIff`, `ExtremeSurvivesIff`, `ExtremeNeedsConstantCell`, `ExactShares`,
`FairWindowIff`, `LeastPickIff`, `ConservesIff`, `ConservedInEveryOrderIff`, `OrderIrrelevantIff`,
`ConsultedIff`, `RunCoveredIff`, `RunLookupsExactIff`, `StepKeepsNamesIff`, `StepKeepsKnownIff`,
`SystemRoleStays`, `LastChangeUndoes`, `LeastSelectedIff` and `TurnsSelected` are of this kind.

## Model

| member | source | states |
|---|---|---|
| `RoleGraph.CheckExplores` | ai-provider/internal/authz/rbac.go:178-204 | After an accepted validation the shared visited set is closed under parents, holds stored roles only, excludes the role itself, and every role in it is reached within the remaining depth |
| `RoleGraph.RejectionJustified` | ai-provider/internal/authz/rbac.go:178-204 | Every rejection has a witness in the graph: a path back to the role, a path to a missing role, or a path longer than the bound |
| `RoleGraph.ValidateDecides` | ai-provider/internal/authz/rbac.go:168-204 | A role whose ancestors are all stored, are not itself and lie within the bound is accepted; an accepted role has stored ancestors only and is not its own ancestor |
| `RoleGraph.ParentOrderDecides` | ai-provider/internal/authz/rbac.go:178-204 | Concrete example: with a chain beyond the bound, the order in which parents are listed decides between acceptance and refusal |
| `RoleListings.DeepChainRefused` | ai-provider/internal/authz/rbac.go:178-204 | On an acyclic store a chain longer than the bound makes the listing that puts the chain first be refused |
| `RoleListings.AcceptedInEveryOrderIff` | ai-provider/internal/authz/rbac.go:168-204 | On an acyclic store a role is accepted under every order of its own and the stored parent lists exactly if its ancestors are all stored, are not itself, and no chain is longer than the bound |
| `RoleGraph.AcceptedKeepsAcyclic` | ai-provider/internal/authz/rbac.go:135-204 | Storing an accepted role, new or in place of one with its ID, keeps the parent graph acyclic, also when other roles already name that ID |
| `RoleGraph.CollectFromExact` | ai-provider/internal/authz/rbac.go:361-379 | The recursion without a visited set finds a permission from a list of parents at any depth exactly if some parent path within the remaining bound leads to a stored role that has it |
| `RoleGraph.CollectExact` | ai-provider/internal/authz/rbac.go:361-379 | On every graph, cyclic ones included, collection gathers exactly the permissions of stored roles reached along at most the maximal number of edges |
| `RoleGraph.WalksAgree` | ai-provider/internal/authz/rbac.go:168-204 | For an accepted role, bounded collection yields the permissions of its full ancestor closure, exactly if the bound is not negative or the role has no permissions of its own |
| `RoleGraph.DescendantsAreNotRevalidated` | ai-provider/internal/authz/rbac.go:222-251 | Concrete counterexample: updating an ancestor can push what a descendant inherits beyond the bound, where collection misses it |
| `RoleDepth.PathsAfter` | ai-provider/internal/authz/rbac.go:222-251 | Once an accepted role is stored, one role is within a number of edges above another exactly if an old path that does not leave the stored role, or an old path to it followed by one from its new parents, is that short |
| `RoleDepth.AgreementAfterIff` | ai-provider/internal/authz/rbac.go:222-251 | The step law: after an accepted role is stored, any role collects its closure exactly if what the old graph and the new parents grant above it is all granted within the bound |
| `RoleDepth.OthersUnaffected` | ai-provider/internal/authz/rbac.go:222-251 | A role that does not lead to the stored one collects its closure exactly if it did before |
| `RoleDepth.AgreementWithoutIff` | ai-provider/internal/authz/rbac.go:254-265 | After a deletion any other role collects its closure exactly if what is granted above it past the deleted role is all granted within the bound |
| `RoleDepth.DeletionHides` | ai-provider/internal/authz/rbac.go:254-265 | Concrete example: deleting the near bearer of a permission leaves only one beyond the bound, and it is no longer collected |
| `RoleDepth.ShallowAfterIff` | ai-provider/internal/authz/rbac.go:222-251 | Storing an accepted role keeps every chain within the bound exactly if the old chains that lead to it leave room for its new ancestry |
| `RoleDepth.ShallowAfterDelete` | ai-provider/internal/authz/rbac.go:254-265 | Deleting a role keeps every chain within the bound |
| `RoleDepth.ShallowCollects` | ai-provider/internal/authz/rbac.go:361-379 | Where every chain is within the bound every stored role collects its closure |
| `RbacDepth.RunShallowIff` | ai-provider/internal/authz/rbac.go:135-265 | The run law of depth: in every state of a run all chains are within the bound exactly if every role fitted below the chains leading to it when it was stored |
| `RbacDepth.RunCollects` | ai-provider/internal/authz/rbac.go:135-379 | If every role fitted below the chains leading to it when it was stored, then in every state of the run, deletions included, every stored role collects exactly the permissions of itself and all its ancestors |
| `RbacDepth.RunAgreementIff` | ai-provider/internal/authz/rbac.go:135-379 | The run law of agreement: in every state of a run all stored roles collect their closure exactly if each accepted creation, update and deletion met the step condition for every role, told from the graph before it |
| `RoleGraph.InheritsFromExhausts` | ai-provider/internal/authz/rbac.go:457-479 | A failed search has visited all stored parents of everything it newly visited and found no role of the target name |
| `RoleGraph.InheritsExact` | ai-provider/internal/authz/rbac.go:457-479 | The visited-set search succeeds exactly if a nonempty parent path leads to a stored role of the target name, on arbitrary graphs with missing parents |
| `RbacModel.HasRoleExact` | ai-provider/internal/authz/rbac.go:437-454 | The role check is true exactly if an unexpired assignment names a stored role that bears the name or inherits one that does |
| `RbacModel.UncachedExact` | ai-provider/internal/authz/rbac.go:299-358 | The uncached computation returns exactly the stored permissions that unexpired assignments grant within the depth bound |
| `RbacModel.CollectedIsGranted` | ai-provider/internal/authz/rbac.go:322-379 | A collected permission ID is one granted by an unexpired assignment to a stored role, and conversely |
| `RbacModel.EntryOrigin` | ai-provider/internal/authz/rbac.go:541-567 | After any operation a cache entry was either computed by it or carried over, and the operation did not change the assignments of its user |
| `RbacModel.CacheProvenance` | ai-provider/internal/authz/rbac.go:541-567 | In every run each cache entry is the uncached result of an earlier query with no reassignment of the user since |
| `RbacModel.BoundedStaleness` | ai-provider/internal/authz/rbac.go:322-358 | In every run an answer equals the uncached result at some moment no more than the cache lifetime ago, with no assignment or revocation for that user in between |
| `RbacModel.StepKeepsSound` | ai-provider/internal/authz/rbac.go:135-265 | Every operation keeps roles stored under their own ID and the parent graph acyclic |
| `RbacModel.RunKeepsAcyclic` | ai-provider/internal/authz/rbac.go:135-265 | Acyclicity of the stored parent graph survives every run of operations |
| `RbacAssignments.AssignmentsAfter` | ai-provider/internal/authz/rbac.go:268-296 | How often a user has an assignment after an operation: once more than before if it was given and the role is stored, not at all if its role was revoked, and otherwise as often as before |
| `RbacAssignments.HeldAfter` | ai-provider/internal/authz/rbac.go:268-296 | An assignment is there after an operation exactly if the operation gave it, or it was there before and the operation did not revoke its role from its user |
| `RbacAssignments.RunAssignments` | ai-provider/internal/authz/rbac.go:268-296 | The run law of assignments: in a state of a run a user has an assignment exactly if it had it at the start or was given it since, while the role was stored, and no revocation of that role came after |
| `RbacAssignments.HoldsAfterRevoke` | ai-provider/internal/authz/rbac.go:291-296 | Right after a revocation the user holds exactly the roles that assignments of other roles confer, and other users hold what they held |
| `RbacAssignments.HoldsAfterAssign` | ai-provider/internal/authz/rbac.go:268-288 | Right after an assignment the user holds what it held and, if the role is stored and until it expires, that role and what it inherits from |
| `RbacAssignments.RunHoldsRole` | ai-provider/internal/authz/rbac.go:268-479 | In every state of a run a user holds a role exactly if an assignment given and not taken since is unexpired and confers it |
| `RbacAssignments.RunGranted` | ai-provider/internal/authz/rbac.go:268-379 | The same for permissions granted within the depth bound |
| `RbacAssignments.ListedAfter` | ai-provider/internal/authz/rbac.go:268-319 | The stored roles of a user are listed in the order of assignment, as often as assigned: an assigned one comes last while unexpired, and a revocation takes out all listings of its role |
| `RbacAssignments.AnswerAfterRevoke` | ai-provider/internal/authz/rbac.go:291-358 | A revocation takes effect at once, cached answers notwithstanding: the next answer has exactly the permissions that assignments of other roles grant |
| `RbacAssignments.CachedAnswerRepeats` | ai-provider/internal/authz/rbac.go:322-358 | Within the lifetime of a computed answer the same answer is given again, whatever happens to roles and permissions, unless the user is reassigned |
| `RoleStoreLaws.RefusedRoles` | ai-provider/internal/authz/rbac.go:135-265 | Exactly which roles are refused on creation, update and deletion, and with which error where name, presence or the system mark decides |
| `RoleStoreLaws.MissingIsFirst` | ai-provider/internal/authz/rbac.go:147-153 | The permission reported missing is the first of the role that is not stored |
| `RoleStoreLaws.RolesAfter` | ai-provider/internal/authz/rbac.go:135-265 | A role is stored under an ID after an operation exactly if the operation put it there, or it was there and the operation neither removed it nor put another there |
| `RoleStoreLaws.StepKeepsNamesIff` | ai-provider/internal/authz/rbac.go:222-251 | Role names stay unique exactly if the operation is no accepted update to a name that another role has, which is checked on creation only |
| `RoleStoreLaws.SystemRoleStays` | ai-provider/internal/authz/rbac.go:222-265 | Updates and deletions leave a system role alone: it stays as it is unless one with its ID is created under an unused name |
| `RoleStoreLaws.SystemRoleInRuns` | ai-provider/internal/authz/rbac.go:222-265 | The same over runs |
| `RoleStoreLaws.StepKeepsKnownIff` | ai-provider/internal/authz/rbac.go:135-265 | The permissions of all roles stay stored exactly if the operation does not delete a permission that a role lists, which is not checked |
| `Rbac.RBACManager.CreateRole` | ai-provider/internal/authz/rbac.go:135-165 | Error and new state of the method are those of the specification that the run theorems are about |
| `Rbac.RBACManager.UpdateRole` | ai-provider/internal/authz/rbac.go:222-251 | The same for updating, system roles refused |
| `Rbac.RBACManager.DeleteRole` | ai-provider/internal/authz/rbac.go:254-265 | The same for deleting, system roles refused |
| `Rbac.RBACManager.AssignRole` | ai-provider/internal/authz/rbac.go:268-288 | Error and new state are those of the step that `AssignmentsAfter` and `HoldsAfterAssign` are about |
| `Rbac.RBACManager.RevokeRole` | ai-provider/internal/authz/rbac.go:291-296 | The new state is that of the step that `AssignmentsAfter`, `HoldsAfterRevoke` and `AnswerAfterRevoke` are about |
| `Rbac.RBACManager.CheckCircularInheritance` | ai-provider/internal/authz/rbac.go:178-204 | The recursion that writes into a shared set returns the verdict of the specification and leaves its visited set behind |
| `Rbac.RBACManager.GetFromCache` | ai-provider/internal/authz/rbac.go:541-554 | Returns the entry unless expired, and drops an expired one |
| `Rbac.RBACManager.GetUserRoles` | ai-provider/internal/authz/rbac.go:299-319 | Stored roles of the unexpired assignments, in order |
| `Rbac.RBACManager.CollectPermissionIDs` | ai-provider/internal/authz/rbac.go:361-379 | Adds exactly the collected IDs to the shared set |
| `Rbac.RBACManager.GetAllUserPermissions` | ai-provider/internal/authz/rbac.go:322-358 | Answer and new cache are those of the specification |
| `Rbac.RBACManager.HasRole` | ai-provider/internal/authz/rbac.go:437-454 | The answer is whether the user holds the role, directly or by inheritance |
| `Rbac.RBACManager.HasRoleInherited` | ai-provider/internal/authz/rbac.go:457-479 | The recursion over a shared visited set refines the functional search |
| `Permissions.NextKeepsSound` | ai-provider/internal/authz/permissions.go:65-159 | Registering or deleting a permission, accepted or refused, keeps every dependency registered and the dependency relation acyclic |
| `Permissions.ReachableIsSound` | ai-provider/internal/authz/permissions.go:65-159 | The same in every state reachable from the empty registry, also after deleting and registering an ID again |
| `Permissions.ReachableIsNamed` | ai-provider/internal/authz/permissions.go:65-90 | In every reachable state each permission is stored under its own nonempty ID and is one that was registered, an empty ID filled in |
| `Permissions.PermissionManager.RegisterPermission` | ai-provider/internal/authz/permissions.go:65-90 | Refuses duplicates and missing dependencies; otherwise adds exactly the permission, an empty ID filled in as resource:action |
| `Permissions.PermissionManager.DeletePermission` | ai-provider/internal/authz/permissions.go:140-159 | Refuses a permission that another depends on; otherwise removes exactly it |
| `Base64.OrDisjoint` | ai-provider/internal/auth/jwt.go:796-821 | Joining shifted bits with lower bits by bitwise or is addition |
| `Base64.Packs` | ai-provider/internal/auth/jwt.go:800-821 | The three output bytes joined from the four 6-bit pieces of three bytes are those bytes |
| `Base64.BuildDecodeMap` | ai-provider/internal/auth/jwt.go:773-786 | The table built by two loops maps every byte to its position in the alphabet, or to the invalid mark |
| `Base64.WriteGroup` | ai-provider/internal/auth/jwt.go:790-821 | One pass writes exactly the bytes of its group behind those written before |
| `Base64.Base64Decode` | ai-provider/internal/auth/jwt.go:773-823 | For every input the loop decodes what the group-wise specification decodes, and every write lands inside a buffer of three quarters of the input length |
| `Base64.DecodeBase64` | ai-provider/internal/auth/jwt.go:749-770 | Padding, alphabet change, decoding and truncation together give the specified result |
| `Base64.RoundTrip` | ai-provider/internal/auth/jwt.go:749-823 | For every byte sequence, decoding its unpadded base64url encoding (section 5 of RFC 4648) returns it |
| `Base64.TailIgnored` | ai-provider/internal/auth/jwt.go:787-823 | A tail of fewer than four characters does not influence the result |
| `Base64.StrayCharacterIgnored` | ai-provider/internal/auth/jwt.go:749-770 | A length of one modulo four, which no encoding has, is not an error: the last character is ignored |
| `Base64.DecodeFailsIff` | ai-provider/internal/auth/jwt.go:787-823 | Decoding fails exactly if a group of four before the end, or before a group that starts with the padding character, has a character outside the alphabet where one is read |
| `Base64.PaddedRoundTrip` | ai-provider/internal/auth/jwt.go:749-770 | Text that is already padded, in the standard or in the URL alphabet, decodes as well |
| `ClaimsJson.EncodeJSON` | ai-provider/internal/auth/jwt.go:593-629 | The text is the braced, comma-joined list of printed pairs in the order in which the map yields its keys |
| `ClaimsJson.ParseJSONObject` | ai-provider/internal/auth/jwt.go:653-700 | The scanning loop refines the scanner specification, for every input |
| `ClaimsJson.ParseJSONValue` | ai-provider/internal/auth/jwt.go:702-747 | The value parser, recursive over list items, refines the value specification, for every input |
| `Splitting.SplitJoin` | ai-provider/internal/auth/jwt.go:734-742 | Splitting undoes joining exactly if no part holds the separator; otherwise it yields more parts |
| `ClaimsJson.IntRoundTrip` | ai-provider/internal/auth/jwt.go:714-719 | Every 64-bit integer is parsed back from its decimal text |
| `ClaimsJson.StringRoundTrip` | ai-provider/internal/auth/jwt.go:702-712 | A quoted string is parsed back exactly if it has no quote at either end |
| `ClaimsJson.ListRoundTrip` | ai-provider/internal/auth/jwt.go:734-742 | A list of strings comes back exactly if it is not empty and no item holds a comma or has a quote at either end |
| `ClaimsJson.ValueRoundTrip` | ai-provider/internal/auth/jwt.go:702-747 | Every printed value is parsed back exactly under these conditions; a 64-bit integer always |
| `ClaimsJson.RunText` | ai-provider/internal/auth/jwt.go:653-692 | From the top level a text is appended to the value and changes nothing else exactly if it is transparent: it has no colon or comma at the top level, outside strings, and ends there |
| `ClaimsJson.CleanTransparent` | ai-provider/internal/auth/jwt.go:653-692 | Printed numbers, and strings and lists of strings without quotes and final backslashes, are transparent |
| `ClaimsJson.RunBody` | ai-provider/internal/auth/jwt.go:653-700 | Scanning printed pairs that pass, in any order, overlays the parsed values on the result |
| `ClaimsRoundTrip.ValueNeeds` | ai-provider/internal/auth/jwt.go:702-747 | No text with fewer characters other than quotes and blanks than the printed claim is parsed as that claim |
| `ClaimsRoundTrip.RunWorth` | ai-provider/internal/auth/jwt.go:653-700 | The scanner invariant of the exactness proof: what is rightly recorded, pending and being read is never worth more than the text read so far |
| `ClaimsRoundTrip.ObjectRoundTrip` | ai-provider/internal/auth/jwt.go:593-700 | For arbitrary values and every iteration order, parsing the printed pairs returns the claims exactly if no key has a blank or quote at either end, the key printed last is not empty, keys and values are transparent (the last value only without a top-level separator), and every value survives; asked of the keys: each is transparent, or no other key is a prefix of it or extends it |
| `ClaimsRoundTrip.SingleRoundTrip` | ai-provider/internal/auth/jwt.go:593-700 | For a single claim, whatever its key and value, the exact condition under which it comes back |
| `ClaimsRoundTrip.CleanRoundTrip` | ai-provider/internal/auth/jwt.go:593-700 | Claims without quotes and final backslashes come back exactly if no key has a blank at either end, the key printed last is not empty, and no list is empty or holds an item with a comma |
| `ClaimsJson.ReadKeyIff` | ai-provider/internal/auth/jwt.go:679-681 | A printed key is read back exactly if it has no blank or quote at either end |
| `ClaimsRoundTrip.EveryOrderRoundTrip` | ai-provider/internal/auth/jwt.go:593-700 | Such claims come back in every iteration order exactly if every key is nonempty, transparent and without a blank or quote at either end, and every value survives and is transparent, or just without a top-level separator if it is the only one |
| `ClaimsRoundTrip.FinalBackslash` | ai-provider/internal/auth/jwt.go:662-668 | A string that ends in a backslash swallows what follows its closing quote: it can come back only as the value printed last |
| `ClaimsRoundTrip.InnerQuotes` | ai-provider/internal/auth/jwt.go:662-668 | Two quotes within a string do no harm if what is between them holds no separator, bracket, quote or backslash |
| `ClaimsRoundTrip.PayloadRoundTrip` | ai-provider/internal/auth/jwt.go:593-770 | The same through base64url: print, encode, decode, trim and parse |
| `ClaimsJson.DecodePayload` | ai-provider/internal/auth/jwt.go:631-651 | Decoding fails exactly if base64url decoding fails, and otherwise parses the brace-trimmed bytes |
| `ClaimsForms.BlanksIgnored` | ai-provider/internal/auth/jwt.go:702-747 | White space around a text that has none at its ends does not matter, whatever the text |
| `ClaimsForms.KeywordsParse` | ai-provider/internal/auth/jwt.go:702-747 | The three keywords are recognised with white space around them or not |
| `ClaimsForms.NumberThenText` | ai-provider/internal/auth/jwt.go:714-719 | Text without a point that begins with a 64-bit number is that number, whatever follows |
| `ClaimsForms.NegativeThenRest` | ai-provider/internal/auth/jwt.go:714-719 | A negative 64-bit number, the smallest included, is read up to its last digit |
| `ClaimsForms.WideNumberIsText` | ai-provider/internal/auth/jwt.go:714-747 | A number of more than 64 bits is taken for plain text |
| `ClaimsForms.FloatParses` | ai-provider/internal/auth/jwt.go:714-747 | Text with a point that the library scans is a float |
| `ClaimsForms.OtherTextIsKept` | ai-provider/internal/auth/jwt.go:702-747 | Text that is no keyword, not quoted and starts with no digit, sign or bracket is kept, trimmed |
| `Sorting.ExchangeSort` | ai-provider/internal/analytics/engine.go:469-482 | The in-place exchange sort yields a sorted permutation for every strict weak order, and leaves a sorted array alone |
| `Sorting.SortedUnique` | ai-provider/internal/audit/tracker.go:421-457 | Without ties there is only one sorted arrangement, so the result does not depend on the order before |
| `Statistics.SumValues` | ai-provider/internal/analytics/engine.go:525-531 | The loop returns the sum of the values |
| `Statistics.MinValue` | ai-provider/internal/analytics/engine.go:533-544 | The loop returns the smallest value, or zero for none |
| `Statistics.MaxValue` | ai-provider/internal/analytics/engine.go:546-557 | The loop returns the largest value, or zero for none |
| `Statistics.ExtremesBound` | ai-provider/internal/analytics/engine.go:533-557 | Minimum and maximum bound every value and are attained |
| `Statistics.PercentileOf` | ai-provider/internal/analytics/engine.go:570-595 | Sorting a copy in place and interpolating gives the percentile that `PercentileInterpolates` is about |
| `Statistics.PercentileOfMultiset` | ai-provider/internal/analytics/engine.go:570-595 | A percentile depends only on the multiset of values |
| `Statistics.PercentileMonotone` | ai-provider/internal/analytics/engine.go:570-595 | Percentiles are monotone in the quantile, within and across interpolation cells |
| `Statistics.PercentileEnds` | ai-provider/internal/analytics/engine.go:570-595 | The percentiles at zero and one are the minimum and the maximum |
| `Statistics.PercentileInterpolates` | ai-provider/internal/analytics/engine.go:570-595 | Where the quantile divides the gap between the ranks k and k+1 of the sorted values in some ratio, the percentile divides the gap between their values in the same ratio; at the ends of the gap it is the value itself |
| `Statistics.SomeSplit` | ai-provider/internal/analytics/engine.go:570-595 | Every quantile of two or more values divides some gap, so that law tells every percentile |
| `Statistics.PercentileOfOne` | ai-provider/internal/analytics/engine.go:570-595 | A single value is each of its percentiles |
| `Statistics.PercentileAtRank` | ai-provider/internal/analytics/engine.go:570-595 | The percentile at the quantile of a rank is the value of that rank |
| `Statistics.PercentileHalfway` | ai-provider/internal/analytics/engine.go:570-595 | Halfway between two ranks it is the mean of their values |
| `Statistics.MedianOfOdd` | ai-provider/internal/analytics/engine.go:570-595 | The median of an odd number of values is the middle one |
| `Statistics.MedianOfEven` | ai-provider/internal/analytics/engine.go:570-595 | The median of an even number of values is the mean of the two in the middle |
| `Grouping.GroupBy` | ai-provider/internal/analytics/engine.go:353-362 | Appending to map entries in a loop partitions the elements by key, keeping their order; the batch processor groups in the same way |
| `Aggregation.SortPointsByTime` | ai-provider/internal/analytics/engine.go:469-482 | A permutation of the points in time order |
| `Aggregation.AggregatePoints` | ai-provider/internal/analytics/engine.go:406-433 | One point per occurring bucket, strictly increasing in time, each with its bucket value and count, whatever the map order |
| `Aggregation.CalculateStatistics` | ai-provider/internal/analytics/engine.go:484-523 | All statistics of a series at once, zero for an empty one |
| `Aggregation.StatisticsOrdered` | ai-provider/internal/analytics/engine.go:484-523 | Minimum, median, 95th, 99th percentile and maximum of a nonempty series are in this order |
| `SeriesLaws.SeriesQuantiles` | ai-provider/internal/analytics/engine.go:484-523 | Median, 95th and 99th percentile of a series divide the gap between two points next to each other in rank as the quantile divides the gap between their ranks |
| `SeriesLaws.SeriesMedian` | ai-provider/internal/analytics/engine.go:484-523 | The median of a series is its middle value or the mean of the two in the middle |
| `SeriesLaws.AggregateQuantiles` | ai-provider/internal/analytics/engine.go:798-834 | The percentile aggregations of a bucket are the same quantiles of its values |
| `SeriesLaws.SeriesMoments` | ai-provider/internal/analytics/engine.go:484-523 | The mean shares out the sum evenly, and the variance is the mean square less the square of the mean |
| `SeriesLaws.AggregateMoments` | ai-provider/internal/analytics/engine.go:719-796 | Sum, average, count and extremes of a bucket without naming the loops |
| `SeriesLaws.SeriesExtremes` | ai-provider/internal/analytics/engine.go:484-523 | The extremes of a series are points of it that bound all others; first and last value are those of the list |
| `SeriesLaws.SeriesTrend` | ai-provider/internal/analytics/engine.go:484-523 | Growth is the change from first to last in hundredths of the first; a series that starts above zero counts as increasing or decreasing exactly if it ends more than a twentieth of its start above or below it |
| `SeriesLaws.NothingIsZero` | ai-provider/internal/analytics/engine.go:484-834 | Without points every statistic and every aggregation is zero |
| `Aggregation.BuildSummary` | ai-provider/internal/analytics/engine.go:597-635 | Series count, point count and one value per requested aggregation that series statistics offer |
| `Aggregation.ValidateQuery` | ai-provider/internal/analytics/engine.go:275-293 | Refuses unset or reversed time ranges and unknown granularities, and asks for averages where nothing is asked for |
| `Aggregation.Query` | ai-provider/internal/analytics/engine.go:227-293 | A refused query yields nothing; otherwise grouping, series and summary composed, whatever order the groups come in |
| `PartFolds.PartitionFold` | ai-provider/internal/analytics/engine.go:353-444 | Folding the parts of a partition with sum, minimum or maximum and then folding the results folds the whole |
| `GroupKeys.GroupsShareIff` | ai-provider/internal/analytics/engine.go:364-381 | Two points share a group exactly if the values of their group-by fields, split at bars, are the same pieces; which field a value is from does not matter |
| `GroupKeys.PlainGroupsShareIff` | ai-provider/internal/analytics/engine.go:364-381 | Without bars they share a group exactly if they hold the same values in the same order, and with the same fields exactly if they agree on each |
| `GroupKeys.MissingFieldsShare` | ai-provider/internal/analytics/engine.go:364-381 | Concrete instance: a point with a value in one field shares its group with a point that has it in another |
| `AggregationLaws.SummaryFolds` | ai-provider/internal/analytics/engine.go:353-635 | Whatever aggregation leads, the summary value for sum, minimum or maximum is that of one leading value per group and bucket, whatever the order of the groups |
| `AggregationLaws.SummaryPreserves` | ai-provider/internal/analytics/engine.go:353-635 | With sum, minimum or maximum leading the aggregations, the summary value for it is that of all raw points, whatever the grouping and the buckets |
| `AggregationLaws.CountLeads` | ai-provider/internal/analytics/engine.go:406-635 | With counting in the lead, the summary value for the sum is the number of raw points |
| `AggregationLaws.ExtremeSurvivesIff` | ai-provider/internal/analytics/engine.go:406-635 | With an average, extreme or percentile in the lead, the summary value for minimum or maximum is that of the raw points exactly if the leading value of some group and bucket is |
| `AggregationLaws.ExtremeNeedsConstantCell` | ai-provider/internal/analytics/engine.go:406-635 | With the average or the opposite extreme in the lead, it is exactly if some group and bucket hold only points of that value |
| `AggregationLaws.SingletonsPreserve` | ai-provider/internal/analytics/engine.go:406-635 | Where no two points share a group and a bucket, summary values for sum, minimum and maximum are those of the raw points unless counting or an unknown aggregation leads |
| `AggregationLaws.PointsConserved` | ai-provider/internal/analytics/engine.go:383-444 | Bucket counts over all series add up to the number of raw points, and every series is strictly increasing in time |
| `AggregationLaws.SummaryCounts` | ai-provider/internal/analytics/engine.go:597-635 | The summary counts the groups that occur and the pairs of group and bucket that occur |
| `AggregationLaws.BucketsTell` | ai-provider/internal/analytics/engine.go:406-444 | Every point has its bucket, every bucket a point, and what stands for a bucket bears its count and no metadata |
| `AggregationLaws.SummaryAverage` | ai-provider/internal/analytics/engine.go:597-635 | The average of the summary shares out the sum of the averages of the series evenly, however many points they have |
| `AggregationLaws.SummaryHolds` | ai-provider/internal/analytics/engine.go:597-635 | The summary holds exactly the aggregations asked for that are sum, average, minimum or maximum, and none without series |
| `AggregationLaws.QueryRefusals` | ai-provider/internal/analytics/engine.go:275-293 | Which queries are refused, and what one that names no aggregation asks for |
| `Trends.CalculateLinearRegression` | ai-provider/internal/analytics/trends.go:271-298 | The accumulator loops return the fitted line, and no other line has a smaller squared error |
| `Trends.DenominatorZero` | ai-provider/internal/analytics/trends.go:288-294 | The denominator vanishes exactly if all positions coincide |
| `Trends.NormalEquations` | ai-provider/internal/analytics/trends.go:271-298 | The residuals of the fitted line sum to zero, also when weighted by position, in both branches |
| `Trends.ErrorOfMove` | ai-provider/internal/analytics/trends.go:271-298 | Moving the fitted line adds exactly the squared heights of the move to its error |
| `Trends.FitIsOptimal` | ai-provider/internal/analytics/trends.go:271-298 | The fitted line has the least squared error of all lines, and is the only one if two positions differ |
| `Trends.CalculateR2Score` | ai-provider/internal/analytics/trends.go:300-325 | The two loops compute one minus the ratio of residual to total squares, one where the total vanishes, and zero for no points |
| `Trends.ScoreMeaning` | ai-provider/internal/analytics/trends.go:300-325 | For any line, the part of the squared deviations from the mean that the score leaves to one is the sum of the squared errors |
| `Trends.ScoresMeaning` | ai-provider/internal/analytics/trends.go:327-334 | Strength is the score cut off to the unit interval; confidence weighs it with six tenths, and the number of points, of which thirty are enough, with four |
| `Trends.FitQuality` | ai-provider/internal/analytics/trends.go:300-334 | On the fitted line the score lies in the unit interval, trend strength leaves it alone, confidence stays in the unit interval, and the score is one exactly for a perfect fit, that of equal values included |
| `ChangeStore.MemoryChangeStore.Store` | ai-provider/internal/audit/tracker.go:193-224 | The change enters the map, the resource index, the user index if it has a user, and the end of the time index |
| `ChangeStore.MemoryChangeStore.Delete` | ai-provider/internal/audit/tracker.go:294-328 | The change leaves the map, both indexes and the time index |
| `ChangeStore.MemoryChangeStore.DeleteByResource` | ai-provider/internal/audit/tracker.go:331-354 | The changes of the resource leave the map and its index entry; the time index is rebuilt in some order; the user index is left as it is |
| `ChangeStore.MemoryChangeStore.GetByResource` | ai-provider/internal/audit/tracker.go:240-258 | The options select from a listing of the live changes that the resource index names |
| `ChangeStore.MemoryChangeStore.GetByUser` | ai-provider/internal/audit/tracker.go:261-278 | The options select from a listing of the live changes that the user index names, stale IDs skipped |
| `ChangeStore.MemoryChangeStore.List` | ai-provider/internal/audit/tracker.go:281-291 | The options select from the time index |
| `ChangeStoreModel.StoreKeepsIndexed` | ai-provider/internal/audit/tracker.go:193-224 | Storing under a fresh ID keeps all indexes right |
| `ChangeStoreModel.DeleteKeepsIndexed` | ai-provider/internal/audit/tracker.go:294-328 | Deleting keeps all indexes right |
| `ChangeStoreModel.DeleteResourceKeepsIndexed` | ai-provider/internal/audit/tracker.go:331-354 | Deleting a resource keeps the resource and time index exact and the user index right about live changes |
| `ChangeStoreModel.RunIndexed` | ai-provider/internal/audit/tracker.go:193-354 | In every state of every run of these operations the resource index is exact, the user index is right about live changes, and the time index lists each live change once |
| `ResourceKeys.KeyInjective` | ai-provider/internal/audit/tracker.go:200-200 | A key determines type and ID unless one type continues the other after a colon |
| `ResourceKeys.KeysShareIff` | ai-provider/internal/audit/tracker.go:200-200 | Two types have resources with the same key exactly if one continues the other after a colon |
| `ChangeStoreModel.ResourceLookupIff` | ai-provider/internal/audit/tracker.go:240-258 | Looking up a resource finds exactly what a scan of all changes finds, exactly if no live change of another type has the same key |
| `ChangeStoreModel.ResourceLookupExact` | ai-provider/internal/audit/tracker.go:240-258 | It does if the type does not collide with that of any live change |
| `ChangeStoreModel.ColonsCollide` | ai-provider/internal/audit/tracker.go:240-258 | Concrete instance: type a finds the change of type a:b, which collides with it |
| `ChangeStoreModel.UserLookupExact` | ai-provider/internal/audit/tracker.go:261-278 | Looking up a user finds exactly what a scan finds, stale IDs notwithstanding; for the empty user exactly if no live change is anonymous |
| `ChangeStoreLaws.RunLive` | ai-provider/internal/audit/tracker.go:193-354 | The run law of the store: it holds a change exactly if that was stored and neither it nor its resource was deleted since |
| `ChangeStoreLaws.RunLookups` | ai-provider/internal/audit/tracker.go:240-291 | In every state of a run the three lookups lead to exactly the changes stored and not deleted since that are under the key, are of the user, and all of them |
| `ChangeStoreLaws.RunInOrder` | ai-provider/internal/audit/tracker.go:193-354 | As long as no resource is deleted as a whole, the time index lists the changes in the order in which they were stored |
| `ChangeStoreLaws.QueryAnswers` | ai-provider/internal/audit/tracker.go:357-418 | A query returns the part given by offset and limit of a list of exactly the wanted changes, none before one that has to precede it |
| `ChangeStoreLaws.BelowMeaning` | ai-provider/internal/audit/tracker.go:430-449 | A string comes before another exactly if it is a proper prefix of it or smaller where they first differ |
| `ChangeStoreLaws.PlainQuery` | ai-provider/internal/audit/tracker.go:357-363 | Without options everything found is returned as it is |
| `ChangeQuery.ApplyQueryOptions` | ai-provider/internal/audit/tracker.go:357-418 | The result is a page of a sorted permutation of the admitted changes; no options return the input |
| `ChangeQuery.SortChanges` | ai-provider/internal/audit/tracker.go:421-457 | A permutation in the requested order; a list in order stays as it is |
| `ChangeQuery.OrderIsWeak` | ai-provider/internal/audit/tracker.go:430-449 | Each of the orders, ascending or descending, is a strict weak order |
| `ChangeQuery.PageIsSlice` | ai-provider/internal/audit/tracker.go:408-417 | A page is the expected slice exactly if its offset lies inside the list; past the end the first page comes back |
| `ChangeTracking.ChangeTracker.Diff` | ai-provider/internal/audit/tracker.go:623-694 | The entries are a diff of the two states, of which `EntriesTell`, `EntryIff`, `DiffUndoes` and `DiffRedoes` say what they hold |
| `ChangeTracking.ChangeTracker.GenerateCreateDiffs` | ai-provider/internal/audit/tracker.go:697-708 | The entries are a diff from nothing to the state: one addition per field, its old value nil |
| `ChangeTracking.ChangeTracker.GenerateDeleteDiffs` | ai-provider/internal/audit/tracker.go:711-722 | The entries are a diff from the state to nothing: one removal per field, its new value nil |
| `ChangeTracking.ChangeTracker.TrackCreate` | ai-provider/internal/audit/tracker.go:498-525 | Records a creation with the diff of its fields and stores it |
| `ChangeTracking.ChangeTracker.TrackUpdate` | ai-provider/internal/audit/tracker.go:528-562 | Refuses two nil states, records nothing for equal fields, otherwise stores the diff |
| `ChangeTracking.ChangeTracker.TrackDelete` | ai-provider/internal/audit/tracker.go:565-588 | Records a deletion with the diff of its fields and stores it |
| `ChangeTracking.ChangeTracker.Track` | ai-provider/internal/audit/tracker.go:607-620 | Dispatches on the type; a restoration is recorded as a creation; an unknown type is refused |
| `ChangeTracking.ChangeTracker.Revert` | ai-provider/internal/audit/tracker.go:754-791 | Answers the inverse request of a known change, and refuses an unknown one |
| `ChangeTracking.ChangeTracker.GetChangeAt` | ai-provider/internal/audit/tracker.go:805-843 | For every chronological list of the changes of a resource the answer is that of filtering and replaying it, whatever order the index yields |
| `ChangeReplayModel.DiffApplies` | ai-provider/internal/audit/tracker.go:623-694 | Applying the diff of two states to a state like the first gives one like the second |
| `DiffLaws.EntriesTell` | ai-provider/internal/audit/tracker.go:623-722 | Every entry of a diff tells the old and the new value of its field, nil where there is none; it is an addition, a removal or a modification exactly as the field is in the later, in the earlier, or in both states |
| `DiffLaws.EntryIff` | ai-provider/internal/audit/tracker.go:623-694 | A field has an entry exactly if it is in one state only or has another value in each, and it has one at most |
| `DiffLaws.DiffUndoes` | ai-provider/internal/audit/tracker.go:623-722 | Taking back all entries, in whatever order they are listed, leads from the later state to exactly the earlier one, absent fields included |
| `DiffLaws.DiffRedoes` | ai-provider/internal/audit/tracker.go:623-722 | Carrying them out leads from the earlier to exactly the later |
| `DiffLaws.DiffUnapplies` | ai-provider/internal/audit/tracker.go:623-694 | Writing the old values into a state like the later gives one like the earlier |
| `DiffLaws.LastChangeUndoes` | ai-provider/internal/audit/tracker.go:498-620 | In every truthful run, writing the old values of a resource's last change into its state gives its state before that change, exactly if the change is no creation over a state that held something |
| `DiffLaws.RunRecords` | ai-provider/internal/audit/tracker.go:498-620 | Every request of a run but an update that changes nothing, or one with no states, is recorded with its own ID, time, user, resource and states; a restoration is recorded as a creation |
| `DiffLaws.FoundIff` | ai-provider/internal/audit/tracker.go:805-822 | There is no snapshot for a moment exactly if the history has no change up to it; the zero time sets no limit |
| `DiffLaws.ReplayStartsOver` | ai-provider/internal/audit/tracker.go:824-843 | What came before a creation, restoration or deletion does not matter to replay, which starts over from the snapshot or from nothing |
| `DiffLaws.ReverseTwice` | ai-provider/internal/audit/tracker.go:754-791 | The record of a reversal is made by who asked for it and turns the reversed record around; reversing it in turn asks for what the first record did |
| `ChangeReplayModel.NoDiffs` | ai-provider/internal/audit/tracker.go:534-538 | A diff is empty exactly if both states have the same fields |
| `ChangeReplayModel.SelectionIsHistory` | ai-provider/internal/audit/tracker.go:805-822 | Filtering and sorting any permutation of a chronological history recovers the history up to the moment |
| `ChangeReplayModel.ReplayIsLatest` | ai-provider/internal/audit/tracker.go:824-843 | Replaying the history of a truthful run gives the latest state of the resource, up to identifying absent fields with nil |
| `ChangeReplayModel.LookupIsHistoryIff` | ai-provider/internal/audit/tracker.go:240-258 | After every truthful run over many resources the resource index leads to exactly the history of a resource, exactly if no change of another type was recorded under its key |
| `ChangeReplayModel.ApartUnshared` | ai-provider/internal/audit/tracker.go:200-200 | No key is shared with a type that collides with none of those used |
| `ChangeReplayModel.ReplayCorrect` | ai-provider/internal/audit/tracker.go:805-843 | In every truthful run over many resources, for a resource whose key is not shared, what the store finds is its history, and the answer for any moment is the state it was in then |
| `ChangeReplayModel.RevertRestores` | ai-provider/internal/audit/tracker.go:754-791 | Reverting the latest change always records a change, keeps the run truthful, and restores the previous state exactly if the change was not a creation over a state that held something |
| `ChangeReplayModel.RevertUpdateFieldwise` | ai-provider/internal/audit/tracker.go:754-791 | Reverting any recorded update gives the fields it changed their earlier values and leaves all others as they are now |
| `Failover.FailoverManager.AddNode` | ai-provider/internal/ha/failover.go:147-173 | Refuses a known ID; otherwise registers the node, as the active one, demoting the old one, if there is none or it has higher priority, and as standby if not |
| `Failover.FailoverManager.RemoveNode` | ai-provider/internal/ha/failover.go:176-194 | Refuses to remove the active node when no failover takes over; otherwise removes it |
| `Failover.FailoverManager.SelectFailoverCandidate` | ai-provider/internal/ha/failover.go:362-377 | A healthy standby node of highest priority, in whatever order the nodes are scanned, or none |
| `Failover.FailoverManager.CheckQuorum` | ai-provider/internal/ha/failover.go:380-388 | Whether as many nodes as the quorum asks for are healthy |
| `Failover.FailoverManager.PerformFailoverUnsafe` | ai-provider/internal/ha/failover.go:296-359 | The automatic failover, with its refusals and its event, refines its specification |
| `Failover.FailoverManager.PerformManualFailover` | ai-provider/internal/ha/failover.go:391-430 | The manual failover refines its specification |
| `Failover.FailoverManager.CheckNodesHealth` | ai-provider/internal/ha/failover.go:266-293 | The sweep, in whatever order, is a succession of the specified visits |
| `FailoverModel.FailoverSound` | ai-provider/internal/ha/failover.go:296-359 | An automatic failover keeps exactly one active node and costs a usable node if it succeeds |
| `FailoverModel.VisitSound` | ai-provider/internal/ha/failover.go:266-293 | After its visit an expired node has failed, or it is the active one and its failover was refused |
| `FailoverModel.SweepFailsExpired` | ai-provider/internal/ha/failover.go:266-293 | After a sweep in any order every expired node has failed, except possibly the active one whose failover was refused |
| `FailoverModel.NextSound` | ai-provider/internal/ha/failover.go:147-430 | Every operation keeps one active node, makes no failed node usable, and pays a usable node for every success |
| `FailoverModel.RunSafe` | ai-provider/internal/ha/failover.go:147-430 | In every reachable state with nodes exactly one is Active and it is the active node; successful automatic failovers number at most registrations minus one |
| `FailoverModel.StaysPopulated` | ai-provider/internal/ha/failover.go:176-194 | The registry is empty exactly if nothing was ever registered: the last node cannot be removed |
| `FailoverModel.FailedIsFinal` | ai-provider/internal/ha/failover.go:266-430 | While a node stays registered it never leaves the failed state |
| `FailoverLaws.VisitMoves` | ai-provider/internal/ha/failover.go:266-293 | What a visit does to every node: it hands over from the visited node to the best fit one exactly if that is active, its heartbeat is too old or its score too low, and a failover is possible; it fails the visited node if its heartbeat is too old and it is not active; every other state and every heartbeat stays |
| `FailoverLaws.SweepFailsOnly` | ai-provider/internal/ha/failover.go:266-293 | The converse of `SweepFailsExpired`: a node that is Failed after a sweep in any order was Failed before, or its heartbeat was too old, or it was the active node at its visit, its score was too low and another took over |
| `FailoverLaws.SweepKeepsStandby` | ai-provider/internal/ha/failover.go:266-293 | A standby node with a recent heartbeat is still Standby after a sweep, unless a failover chose it |
| `Failover.Heartbeat` | ai-provider/internal/ha/failover.go:48-207 | A heartbeat of a node obtained from the manager has the effect of the specified step, and none for an unknown node |
| `FailoverLaws.BeatMoves` | ai-provider/internal/ha/failover.go:48-53 | After a heartbeat its node times out exactly when the timeout has passed since, and nothing else changes |
| `FailoverLaws.BeatInTime` | ai-provider/internal/ha/failover.go:48-293 | A standby node that gives a heartbeat in time before a sweep does not fail in it |
| `FailoverLaws.AddMoves` | ai-provider/internal/ha/failover.go:147-173 | A new node becomes active exactly if its priority is higher than that of every active node, and no node but the old active one is touched |
| `FailoverLaws.AddsElectHighest` | ai-provider/internal/ha/failover.go:147-173 | Of nodes that register one after another the first of highest priority is active |
| `FailoverLaws.RemoveMoves` | ai-provider/internal/ha/failover.go:176-194 | A removal takes the node away unless it is active and no failover is possible; the active node hands over to the best fit one; the other nodes stay as they are |
| `FailoverLaws.ManualMoves` | ai-provider/internal/ha/failover.go:391-430 | A manual failover to a healthy standby node swaps it with the active one; any other leaves everything as it is |
| `FailoverLaws.ManualThereAndBack` | ai-provider/internal/ha/failover.go:391-430 | Failing over by hand and back again restores all nodes, if the node that was active is healthy |
| `FailoverLaws.FailoverLogs` | ai-provider/internal/ha/failover.go:296-359 | An attempt is logged exactly if there is a fit node, from the old to the best fit one, as a success exactly if policy and quorum let it happen |
| `FailoverLaws.ReasonsGiven` | ai-provider/internal/ha/failover.go:176-430 | The reason and the policy that each kind of failover is logged with |
| `FailoverLaws.NextTruthful` | ai-provider/internal/ha/failover.go:147-430 | The log tells the truth: an operation reports a success exactly if it makes another node active, from the one that was to the one that is |
| `LoadBalance.LoadBalancer.AddBackend` | ai-provider/internal/ha/loadbalance.go:133-149 | Refuses nil and known IDs; otherwise adds to map and list, which keep agreeing |
| `LoadBalance.LoadBalancer.RemoveBackend` | ai-provider/internal/ha/loadbalance.go:152-178 | Removes from map, list and every cached session, which keep agreeing |
| `LoadBalance.LoadBalancer.GetHealthyBackends` | ai-provider/internal/ha/loadbalance.go:251-259 | The backends that are active, healthy and below their limit, in order |
| `LoadBalance.LoadBalancer.SelectRoundRobin` | ai-provider/internal/ha/loadbalance.go:262-269 | The backend at the counter modulo their number; the counter advances and wraps |
| `LoadBalance.LoadBalancer.SelectWeighted` | ai-provider/internal/ha/loadbalance.go:272-298 | The backend the draw falls on, or round robin when all weight is zero |
| `LoadBalance.LoadBalancer.SelectLeastConnections` | ai-provider/internal/ha/loadbalance.go:301-318 | The loop with its sentinel refines its specification |
| `LoadBalance.LoadBalancer.SelectHealthBased` | ai-provider/internal/ha/loadbalance.go:321-337 | The loop refines its specification; none where no score is positive |
| `LoadBalance.LoadBalancer.SelectBackend` | ai-provider/internal/ha/loadbalance.go:204-248 | A fit cached backend is returned as it is; otherwise the algorithm picks among the healthy ones, and the cache and counter change as specified; a returned backend is healthy exactly if it was picked afresh or is below its connection limit |
| `LoadBalance.SelectKnown` | ai-provider/internal/ha/loadbalance.go:204-231 | Sessions stick: one remembered with a backend that is active and of sufficient health is given that again, whatever the algorithm, and no turn is used up |
| `LoadBalance.SelectForSession` | ai-provider/internal/ha/loadbalance.go:204-248 | After a selection its session is remembered with the backend it was given, and forgotten if it was given none; other sessions stay as they are |
| `SelectionLaws.FitsInOrder` | ai-provider/internal/ha/loadbalance.go:251-259 | The backends selected from are exactly the active, healthy ones below their limit, in the order of the list |
| `SelectionLaws.LeastSelected` | ai-provider/internal/ha/loadbalance.go:204-337 | By least connections the selected backend is the first with the fewest, if no count is negative |
| `SelectionLaws.LeastSelectedIff` | ai-provider/internal/ha/loadbalance.go:204-337 | In general it has the fewest exactly unless -1 is the least count but not that of the last backend |
| `SelectionLaws.BestSelected` | ai-provider/internal/ha/loadbalance.go:204-337 | By health it is the first of the highest positive score, and there is none exactly if no score is positive |
| `SelectionLaws.WeightsSelected` | ai-provider/internal/ha/loadbalance.go:204-298 | By weight exactly as many of the draws below the sum of the weights select a backend as its weight says, if no weight is negative |
| `SelectionLaws.RandomSelected` | ai-provider/internal/ha/loadbalance.go:204-248 | At random exactly one of the draws below the number of backends selects each |
| `SelectionLaws.CounterStays` | ai-provider/internal/ha/loadbalance.go:204-337 | A selection by least connections, by health, at random, or by weight where there is any, uses up no turn |
| `SelectionLaws.TurnsSelected` | ai-provider/internal/ha/loadbalance.go:204-298 | In turn, and by weight where there is none, as many successive selections as there are backends select each once, exactly if the 64-bit counter does not wrap among them or its range is a multiple of their number |
| `LoadBalanceModel.ShareIsStretch` | ai-provider/internal/ha/loadbalance.go:286-297 | With no negative weight the draws that select a backend are one stretch as long as its weight |
| `LoadBalanceModel.ExactShares` | ai-provider/internal/ha/loadbalance.go:272-298 | Exactly as many draws select each backend as its weight says, exactly if no weight is negative |
| `LoadBalanceModel.FairWindowIff` | ai-provider/internal/ha/loadbalance.go:262-269 | As many consecutive selections as there are backends pick none twice exactly if the counter does not wrap among them or its range is a multiple of their number |
| `LoadBalanceModel.FairWindowCovers` | ai-provider/internal/ha/loadbalance.go:262-269 | Such a window picks every backend |
| `LoadBalanceModel.LeastPickIff` | ai-provider/internal/ha/loadbalance.go:301-318 | The pick has the fewest connections exactly if not: -1 is the least count but not that of the last backend, which the sentinel is mistaken for |
| `LoadBalanceModel.HealthPickIsBest` | ai-provider/internal/ha/loadbalance.go:321-337 | The first of the highest positive scores; none exactly if no score is positive |
| `LoadBalanceModel.PickFails` | ai-provider/internal/ha/loadbalance.go:222-247 | Among healthy backends one is selected unless by health with no positive score, when neither a backend nor an error is returned |
| `Batch.BatchExecution.Commit` | ai-provider/internal/inference/batch.go:349-364 | Storing a result under the lock has the effect of the commit step on every state the object shows |
| `Batch.BatchExecution.Finalize` | ai-provider/internal/inference/batch.go:416-438 | Finalizing has the effect of the final step |
| `BatchModel.StepKeepsInv` | ai-provider/internal/inference/batch.go:324-438 | Every step of the coordinator or a worker keeps the invariant |
| `BatchModel.Conservation` | ai-provider/internal/inference/batch.go:339-367 | In every state of every interleaving each slot is written at most once and with its own result, the counters count the outcomes written, and at most ten requests are in flight |
| `BatchModel.ProgressMonotone` | ai-provider/internal/inference/batch.go:361-363 | Progress never decreases in any interleaving |
| `BatchModel.FinalOutcome` | ai-provider/internal/inference/batch.go:416-438 | Once finalized every slot was written exactly once, the counters add up to the total, and the status is complete, failed or partial exactly as the outcomes dictate |
| `BatchModel.RunsFinalize` | ai-provider/internal/inference/batch.go:324-378 | Every interleaving ends within six steps a request and two more, and one that can go no further has finalized the batch |
| `BatchLaws.RunResults` | ai-provider/internal/inference/batch.go:339-364 | In every interleaving what a slot holds is the outcome of an execution of its own request |
| `BatchLaws.ExecutedOnce` | ai-provider/internal/inference/batch.go:339-364 | In every interleaving no request is executed twice |
| `BatchLaws.RunProgressIs` | ai-provider/internal/inference/batch.go:349-364 | Until a batch is finalized its progress is the share of slots written, in hundredths |
| `BatchLaws.TenPlaces` | ai-provider/internal/inference/batch.go:324-367 | At most ten workers hold a place at a time, and one that waits can enter exactly if fewer do |
| `Batching.OptimizeBatch` | ai-provider/internal/inference/batch.go:509-538 | The optimized batch holds the same requests, those of equal parameters together, group by group in some order |
| `Batching.DynamicBatcher.CreateBatch` | ai-provider/internal/inference/batch.go:655-687 | Batches go out for a prefix of the models in some order, as many as the channel has room for, and as many requests are dropped from the front |
| `BatchingModel.GroupsPermute` | ai-provider/internal/inference/batch.go:533-535 | The groups of all keys, in any order, are a permutation of the requests |
| `BatchingModel.GroupsTogether` | ai-provider/internal/inference/batch.go:519-535 | In an optimized batch requests of equal parameters come together |
| `BatchingModel.BatchesHoldGroups` | ai-provider/internal/inference/batch.go:667-686 | The batches that go out hold exactly the groups of the models sent, each only requests of its model and all of them |
| `BatchingModel.ConservesIff` | ai-provider/internal/inference/batch.go:667-686 | No request is lost or sent twice exactly if the dropped front holds only requests of models sent out |
| `BatchingModel.ConservedInEveryOrderIff` | ai-provider/internal/inference/batch.go:667-686 | Requests are conserved in whatever order the models come, exactly if the channel has room for no batch or for one of every model |
| `BatchingModel.AllSent` | ai-provider/internal/inference/batch.go:667-686 | With room for all groups every request is sent and none stays pending |
| `BatchingModel.PartialSendLoses` | ai-provider/internal/inference/batch.go:667-686 | Concrete counterexample: with room for one of two groups a request is lost and another stays pending after it was sent |
| `AclModel.CoversExactly` | ai-provider/internal/authz/acl.go:517-545 | A pattern covers exactly itself and, with a final star, the extensions of what precedes the star |
| `AclModel.AcyclicEnds` | ai-provider/internal/authz/acl.go:470-492 | Without inheritance cycles the chain of parents ends, in fewer links than there are lists |
| `AclModel.CollectedAreBorne` | ai-provider/internal/authz/acl.go:470-492 | Every collected entry is, but for its inherited flag, an entry of the list or of one it inherits from |
| `AclModel.BorneAreCollected` | ai-provider/internal/authz/acl.go:470-492 | Every entry of the list or of one it inherits from is collected |
| `AclModel.DecisionCorrect` | ai-provider/internal/authz/acl.go:392-450 | A decision rests on a matching entry of highest priority among all own and inherited ones, or on there being no match |
| `AclModel.AllowedIff` | ai-provider/internal/authz/acl.go:392-450 | When the top matches agree, access is allowed exactly if one of them allows it |
| `AclModel.OrderIrrelevantIff` | ai-provider/internal/authz/acl.go:392-450 | The verdict is independent of the order of ties exactly if the top matches agree |
| `AclLaws.BorneIff` | ai-provider/internal/authz/acl.go:470-492 | The entries of a list and of those it inherits from are exactly those of the lists that a path of inheritance links leads to |
| `AclLaws.CollectedMarks` | ai-provider/internal/authz/acl.go:470-492 | What is collected from a list is its own entries as they are and those of the lists it inherits from, each marked as inherited |
| `AclLaws.DecisionTold` | ai-provider/internal/authz/acl.go:392-450 | Whatever the order of ties, access is allowed only on the word of an applying entry of highest priority, own or inherited, that does not deny, and refused only on that of one that denies or because none applies; the reason given says which |
| `AclLaws.AccessIff` | ai-provider/internal/authz/acl.go:392-450 | Where the decisive entries agree, access is allowed exactly if there is one and it does not deny |
| `AclLaws.RefusedOps` | ai-provider/internal/authz/acl.go:89-217 | Exactly which operations are refused, and with which error |
| `AclLaws.ListsAfter` | ai-provider/internal/authz/acl.go:89-217 | Whether there is a list after an operation, of which resource, and what it inherits from |
| `AclLaws.EntriesAfter` | ai-provider/internal/authz/acl.go:148-217 | An entry is in a list after an operation exactly if the operation put it there, or it was there and was not taken: by its removal, by an update under its ID, or with the whole list |
| `AclStoreModel.ConsultedIff` | ai-provider/internal/authz/acl.go:392-395 | The list that a request looks up is the requested resource's own exactly if it is of the same type; a list of the resource is stored under no other key |
| `AclStoreModel.ConsultedApart` | ai-provider/internal/authz/acl.go:392-395 | It is if the requested type collides with that of no stored list |
| `AclStoreModel.StepKeepsWellFormed` | ai-provider/internal/authz/acl.go:89-217 | Every operation keeps lists under their own key and entry IDs unique within a list |
| `AclStoreModel.StepKeepsCoveredIff` | ai-provider/internal/authz/acl.go:148-217 | Every operation keeps the principal index complete, except an update of an entry to a principal the list is not indexed for |
| `AclStoreModel.RunCoveredIff` | ai-provider/internal/authz/acl.go:89-217 | In every state of a run the index knows every list that has an entry for a principal, exactly if no update of the run moves an entry to a principal its list is not indexed for |
| `AclStoreModel.PrincipalAccessExact` | ai-provider/internal/authz/acl.go:570-590 | Going through the index finds exactly what a scan of all lists finds, for every principal, if and only if the index is complete |
| `AclStoreModel.RunLookupsExactIff` | ai-provider/internal/authz/acl.go:89-590 | Lookups are exact in every state of a run if and only if its updates are indexed |
| `AclStore.MemoryACLStore.AddACE` | ai-provider/internal/authz/acl.go:148-172 | Refuses a missing list and a known entry ID; otherwise appends the entry and indexes its principal |
| `AclStore.MemoryACLStore.UpdateACE` | ai-provider/internal/authz/acl.go:175-194 | Replaces the entry with its ID, and leaves the index as it is |
| `AclStore.MemoryACLStore.RemoveACE` | ai-provider/internal/authz/acl.go:197-217 | Removes the entry with the ID, and leaves the index as it is |
| `AclStore.MemoryACLStore.GetACLsByPrincipal` | ai-provider/internal/authz/acl.go:220-238 | The stored lists the index names, each once |
| `AclStore.ACLService.CollectACEs` | ai-provider/internal/authz/acl.go:470-492 | The recursion with its marking loop refines its specification |
| `AclStore.ACLService.CheckAccess` | ai-provider/internal/authz/acl.go:392-450 | Sort, then first match: the decision is the first match of some arrangement by priority |
| `AclStore.ACLService.GetPrincipalAccess` | ai-provider/internal/authz/acl.go:570-590 | Every entry for the principal in the lists found, each once |
| `AclStore.ACLService.SetInheritance` | ai-provider/internal/authz/acl.go:600-608 | Sets the parent of a stored list, and nothing else |

## Left out

- SQL, GORM, HTTP, Redis, files, TLS and vault code, billing, dashboards, OAuth and configuration: input and output, or libraries that are not shown.
- Locks: each method is one atomic step, except in `Batch.dfy`, where the steps under the lock interleave.
- Repository errors other than "not found"; the role repository's own checks. Creating a role inserts or replaces the role with its ID, and revoking removes all assignments of the role to the user.
- RoleGraph.ValidateDecides: acceptance of one listing with a chain beyond the bound is not given by a condition on the graph, because the verdict depends on the order of the search (`ParentOrderDecides`); acceptance of every listing is (`AcceptedInEveryOrderIff`).
- Rbac.RBACManager.GetAllUserPermissions: permissions are returned as a set, because their order follows Go's map; one clock reading serves a whole operation, where the code reads the clock again for each assignment.
- HasPermission, scopes and permission sets: they would only add easy members.
- Nil arguments of RegisterPermission and AddNode, and the time stamps and descriptions of stored records.
- Signing, verification and the checks of token claims: the signing helpers are not part of this model, and the parser yields integers where the checks expect floats.
- ClaimsJson.ParseJSONValue: the library's scan of a float is a parameter of which only the refusal of a leading bracket is assumed, so claims holding floats are parsed but not printed; booleans and other printed values are not modelled.
- ClaimsRoundTrip.ObjectRoundTrip: left open are claims of which some key does not pass through the scanner and is a prefix of another key or extends one.
- ClaimsRoundTrip.EveryOrderRoundTrip: the same.
- ClaimsRoundTrip.PayloadRoundTrip: the same, for text of single bytes.
- Trimming considers ASCII white space only.
- Rounding of floating point numbers, standard deviations (a square root), and series labels.
- Aggregation.CalculateStatistics: the standard deviation is left out, being the square root of the variance.
- Aggregation.Query: the fetch with its filters and the query cache are left out; the points fetched are a parameter.
- AggregationLaws.SummaryFolds: where an average, extreme or percentile leads, when the summary sum equals the raw sum is told only by this formula and for single-point cells; the summary average, no fold, is not traced back to raw points.
- Truncation of times to calendar units is a parameter of the pipeline; metadata values are strings; the query cache is left out, since its key omits filters and grouping.
- Forecasts, patterns, change points and seasonality in `analytics/trends.go`: heuristics without a stated law.
- ChangeTracking.ChangeTracker.GetChangeAt: values are copied; the code replays updates into the stored snapshot map of a creation, which later reads then see.
- Metadata, reasons, sessions and addresses of changes; change IDs are parameters, and the run theorems ask for fresh ones.
- The truth about a resource starts with nothing: a resource that existed before its first recorded change is outside `ReplayCorrect`.
- Failover event IDs, durations and the event channel; node statistics. `updateNode` in `ha/updates.go` sets node states behind the manager's back and is not one of the modelled operations.
- LoadBalance.LoadBalancer.SelectWeighted: a negative total weight is excluded, as the library's random source panics on it.
- Connection and request counters other than the one read by the selection, and statistics of the load balancer.
- Launching and cancelling of batches, batch statistics, and clean-up: the model is one execution of one batch.
- Batching.DynamicBatcher.CreateBatch: nobody receives from the channel while batches go out.
- Cyclic inheritance of access control lists, on which the code does not return: the chain of parents must end, which `AcyclicEnds` derives from acyclicity.
- AclStore.MemoryACLStore.CreateACL: lists are created empty, as the service does; entries stored along with a new list would not be indexed.
- Granting and denying access: a list is created if missing and one entry added, by operations that are modelled.
