# AccessIQ: a verified model

AccessIQ is an identity-governance backend: users and groups are provisioned over SCIM, access is
granted, revoked and delegated, certification campaigns review it, remediation jobs carry the
revocations out through connectors, and a graph over the same tables answers questions about it.
This project models the state machines and algorithms behind those services and proves what they
keep over whole runs.

Every table is a map or a sequence of rows. A service call is one atomic step: it commits or leaves
the tables alone. The services that update rows in place are classes whose fields are the tables;
each of their methods is proved equal to a step function on values, and the theorems over all runs
are proved about those step functions. What the steps mean is stated once more over the fields of the
rows and the members of the payloads, without the functions the steps are made of. Clocks, e-mail validation, connector replies, database
refusals and generated correlation ids are parameters, so the theorems hold for every choice of them.

| module | what it holds |
|---|---|
| `AuthorizationGraph`, `GraphQueries` | the graph with its two adjacency indexes, breadth-first shortest path, the builder's manager and entitlement edges, the manager-chain and access queries |
| `ManagerHierarchy`, `EnterpriseProfiles`, `ScimPayloads`, `EnterpriseUsers`, `DirectoryLog`, `ScimRoundTrip`, `StoredNames`, `PatchMeaning`, `UserMeaning`, `UserDirectory` | SCIM users (RFC 7643 section 4.3, RFC 7644 sections 3.5.1 and 3.5.2): parsing, PATCH folding, manager validation, the directory invariant, the event log, the PUT round trip and the names that break it, what each operation and request means over the payload's own members and the rows, the services in place |
| `AccessPolicy`, `AccessControl`, `AccessMeaning`, `AccessService` | roles, delegations, the grant and revoke policies, the three gates and the audit log, and the same rules over the fields of the rows |
| `RetryPolicies`, `Connectors`, `Provisioning` | back-off arithmetic, connectors as adversaries or as the configurable mock, the retry loop and its history |
| `Certification`, `CertificationService` | campaigns, review items, decisions and cached counters |
| `Remediation`, `RemediationLinks`, `RemediationService` | one job per revoked item, run through the provisioning orchestrator, and what it is linked to |
| `Groups`, `GroupMeaning`, `GroupService` | SCIM groups and their event log, and what each operation does |
| `LikeFilter` | escaping and matching of the contains operator (RFC 7644 section 3.4.2.2) |
| `Metrics` | histograms and their cumulative rendering |
| `TokenBudget` | greedy selection of ranked evidence |
| `Prelude`, `Text` | options and results; case folding, stripping, decimal rendering, integer parsing |

Where the code falls short of what one might expect of it, the model follows the code and a lemma
says exactly where the line runs:

- Reading a user and PUTting the resource back is the identity if and only if the e-mail validator
  turns the stored e-mail into itself and the stored name is stripped, non-empty and at most 100
  characters (`ScimRoundTrip.PutBackIsIdentity`). Two endpoints store other names: the plain user
  endpoint does not strip (`StoredNames.PlainNames`, with the input " Bob" in
  `StoredNames.LeadingSpaceIsLost`), and PATCH "remove displayName" stores the e-mail without a length
  check (`StoredNames.RemovalThenPutBack`, with a failing run in
  `StoredNames.LongEmailIsLost`); a database that enforces the 100 characters of the name column refuses
  that commit instead. For the enterprise extension alone the round trip always
  holds.
- The endpoint text says that a global administrator role is required for access changes, but an
  effective delegation is enough; conversely the policy's help-desk approval never suffices
  (`AccessControl.HelpdeskAloneNeverSuffices`).
- The delegation with the lowest id decides, even when a later one would allow more
  (`AccessControl.OlderDelegationShadows`, reached in `AccessControl.ShadowingIsReached`).
- A remediation job that fails before its provisioning job exists is linked to the newest provisioning
  job with its correlation id, of an earlier request or of an earlier item of its own, and has no link
  exactly when there is none (`RemediationLinks.EarlyFailureLink`). That is the only way two jobs share
  a link (`Remediation.SharedLinkMeansEarlyFailure`); `RemediationLinks.SharesLinkIff` says exactly when
  two jobs of one request do, and a run does end so (`RemediationLinks.SharedLinkIsReached`).
- The unique constraint on delegations includes the active flag, so a key has one inactive row at most:
  a delegation that was removed and assigned again can never be removed a second time
  (`AccessControl.SecondRemovalNeverSucceeds`, reached in `AccessControl.SecondRemovalIsReached`), and
  an expired row that is still active blocks a new assignment (`AccessControl.AssignSucceedsIff`).

## Model

| member | source | states |
|---|---|---|
| `AuthorizationGraph.Graph.ShortestPath` | app/graph/models.py:172-201 | On any graph, found exactly when both ends are nodes and some undirected walk joins them; the nodes and edges returned are such a walk and no walk is shorter; the lookup error can occur only when an edge ends at an id that is no node; the search ends |
| `AuthorizationGraph.Graph.Search` | app/graph/models.py:179-201 | The queue loop: returns an entry for a walk of minimal length, or none exactly when no walk exists |
| `AuthorizationGraph.Expand` | app/graph/models.py:194-199 | One dequeued entry: every unvisited neighbour is queued once with a real route, and the search invariant (sound routes, level order, finished nodes closed under neighbours) is kept |
| `AuthorizationGraph.WalkMeetsFrontier` | app/graph/models.py:179-201 | Any walk to an unfinished node leaves the finished set at a discovered node no deeper than its position on the walk |
| `AuthorizationGraph.HeadIsShortest` | app/graph/models.py:184-192 | The route at the head of the queue is a shortest walk to its node |
| `AuthorizationGraph.ExhaustedMeansUnreachable` | app/graph/models.py:183-201 | An empty queue with the target unvisited means no walk exists |
| `AuthorizationGraph.AppendKeepsIndex` | app/graph/models.py:135-138 | Appending an edge to the list and to one entry of each index keeps both indexes equal to the list filtered by endpoint |
| `AuthorizationGraph.FilterMembers` | app/graph/models.py:143-170 | The endpoint filters select exactly the edges with that endpoint |
| `AuthorizationGraph.SortByIdSorts` | app/graph/models.py:143-150 | Sorting by the edge id string is ordered and loses or adds nothing |
| `AuthorizationGraph.LexMeaning` | app/graph/models.py:149-150 | The order of ids is that of strings: a prefix first, else the first difference decides |
| `AuthorizationGraph.Graph.AddNode` | app/graph/models.py:107-110 | Stores the node under its id, keeps edges and index agreement |
| `AuthorizationGraph.Graph.AddEdge` | app/graph/models.py:112-138 | Appends exactly one edge with the next id and keeps both indexes equal to the filtered edge list |
| `AuthorizationGraph.Graph.AddEdgeIfNodesExist` | app/graph/builder.py:610-634 | Adds the edge exactly when both ends are nodes, so every edge endpoint stays a node |
| `AuthorizationGraph.Graph.EdgesFor` | app/graph/models.py:143-150 | Exactly the edges touching a node, with multiplicity: a self-loop appears twice |
| `AuthorizationGraph.Graph.Outgoing` | app/graph/models.py:152-160 | The edges that leave a node, of one kind or of all, sorted by edge id |
| `AuthorizationGraph.Graph.Incoming` | app/graph/models.py:162-170 | The edges that enter a node, of one kind or of all, sorted by edge id |
| `AuthorizationGraph.Graph.Resolve` | app/graph/models.py:186-192 | Turns a route of ids into stored nodes, failing only if an edge endpoint is no node |
| `GraphQueries.FindManagerChain` | app/graph/query.py:47-67 | On any graph the walk ends, never repeats a node, follows the first MANAGED_BY edge each time, and stops only at a dead end, a repeat or a missing node |
| `GraphQueries.NextManagerMeaning` | app/graph/query.py:53-57 | The next manager is the target of the MANAGED_BY edge with the least id; there is none exactly when no such edge leaves |
| `GraphQueries.ChainIsComplete` | app/graph/query.py:47-67 | On a graph that shows an acyclic manager relation the chain lists every manager above the user, in order, up to one without a manager |
| `GraphQueries.ReachedChainsAreComplete` | app/graph/query.py:47-67 | The same on the graph of every directory that any run of user requests reaches, with acyclicity taken from the run invariant |
| `GraphQueries.BuiltGraphShowsManagers` | app/graph/builder.py:358-380 | In a graph built from a directory the next manager of each user node is the stored manager |
| `GraphQueries.BuildGraph` | app/graph/builder.py:42-58 | From the rows: all user and entitlement nodes, and for each user exactly the manager and entitlement edges whose two ends exist; every edge endpoint is a node |
| `GraphQueries.AddProfileRow` | app/graph/builder.py:358-380 | One profile row appends exactly its CONNECTED_TO edge when both ends are nodes, then its MANAGED_BY edge when a manager is set and both users are nodes; nothing else changes |
| `GraphQueries.BuiltGraphShowsAccess` | app/graph/builder.py:344-356 | In a built graph the HAS_ENTITLEMENT edges of a user lead to exactly the entitlements assigned to that user that exist |
| `GraphQueries.FindEntitlements` | app/graph/query.py:31-37 | The existing targets of the HAS_ENTITLEMENT edges, one per edge, in the order of the edge ids |
| `GraphQueries.EntitlementsOfMembers` | app/graph/query.py:31-37 | That list holds exactly the existing nodes that the HAS_ENTITLEMENT edges lead to |
| `GraphQueries.FindAccessPath` | app/graph/query.py:39-45 | On any graph, for an entitlement held or not: the right answer to the path query, found exactly when a walk joins the two and then a shortest one |
| `GraphQueries.UserAccess` | app/graph/query.py:132-146 | None exactly for an unknown user; otherwise the entitlement list with, position by position, the right path to each; in a built graph every path is the single direct edge |
| `GraphQueries.NodeIdsDiffer` | app/graph/models.py:213-214 | Node ids of different rows or families never collide |
| `UserDirectory.Service.ValidateManager` | app/services/enterprise_user_service.py:154-185 | The walk with its seen set ends on every relation, cyclic or not; for an existing manager it rejects exactly when the user is the manager or manages the manager, directly or indirectly |
| `UserMeaning.ManagerFaults` | app/services/enterprise_user_service.py:154-185 | Which refusal is reported: unknown exactly for a missing row, self exactly for the user, a cycle exactly when a path of stored managers leads from the proposed manager to the user |
| `UserMeaning.AllowedIff` | app/services/enterprise_user_service.py:154-185 | A manager is accepted exactly when absent, or another existing user from whom no path of stored managers leads to the user |
| `ManagerHierarchy.AssignKeepsAcyclic` | app/services/enterprise_user_service.py:154-185 | Assigning a manager to an acyclic relation keeps it acyclic if and only if the manager is neither the user nor managed by the user |
| `ManagerHierarchy.ClearKeepsAcyclic` | app/services/enterprise_user_service.py:289-305 | Removing a manager keeps the relation acyclic |
| `EnterpriseUsers.RunKeepsInv` | app/services/enterprise_user_service.py:197-287 | Over every run of create, replace and patch requests: managers acyclic, references resolve, stored texts stripped, non-empty and at most 100 characters, employee numbers and e-mails unique ignoring case |
| `EnterpriseUsers.ReachedInv` | app/services/enterprise_user_service.py:197-287 | In particular in every state reached from empty tables |
| `UserMeaning.NumbersDiffer` | app/services/enterprise_user_service.py:333-351 | In every state reached from empty tables, the stored employee numbers of two users differ when both are lower-cased |
| `UserMeaning.DuplicateNumberIff` | app/services/enterprise_user_service.py:224-230 | A duplicate is reported if and only if the number to be set equals, in small letters, one stored for another user |
| `EnterpriseUsers.StepKeepsInv` | app/scim/provisioning.py:124-395 | Each request, accepted, refused by a check or refused by the database, keeps that invariant |
| `UserDirectory.Service.ValidateMutation` | app/services/enterprise_user_service.py:224-233 | The employee number is checked before the manager, and nothing is written when either fails |
| `UserDirectory.Service.ApplyProfileMutation` | app/services/enterprise_user_service.py:197-287 | On a fault users and events stay; otherwise users, profiles, the change list and the queued events are exactly those of the desired values, the row event first |
| `UserDirectory.Service.WriteColumns` | app/services/enterprise_user_service.py:235-249 | The column loop writes exactly the differing columns in order, with one change and one event each, mirroring the department |
| `UserDirectory.Service.PatchUser` | app/services/user_service.py:113-135 | Assigns the attributes the mutation carries; a taken user name changes nothing |
| `UserDirectory.Service.CreateUser` | app/main.py:785-813 | The plain endpoint: lengths and address checked, nothing stripped; a used address or a refused commit changes nothing |
| `UserDirectory.Service.CreateScimUser` | app/scim/provisioning.py:124-206 | Rolled back as a whole on a fault or a refused commit; otherwise the row with its lower-case user name, the profile of the extension and the events in order are committed |
| `UserDirectory.Service.ReplaceScimUser` | app/scim/provisioning.py:209-301 | The row is overwritten and the profile replaced, or cleared when no extension is sent; a fault or a refused commit undoes the whole request |
| `UserDirectory.Service.PatchScimUser` | app/scim/provisioning.py:304-395 | Row and profile change by the folded patch and its events are published together; a failed or refused patch changes and publishes nothing |
| `UserMeaning.PutMeaning` | app/scim/provisioning.py:209-301 | For every readable payload: accepted if and only if address, number and manager are free or allowed and the step commits; then e-mail, name and active flag are those of the payload, every column and the manager that it does not send are null, the department follows, the events report exactly the difference, and nothing else changes |
| `UserMeaning.PostMeaning` | app/scim/provisioning.py:124-206 | For every readable payload: accepted under the same conditions; then a row with the next id, the fallback department unless the extension sets one, the profile of the extension, and the provisioning event first |
| `UserMeaning.PatchAcceptedIff` | app/scim/provisioning.py:304-395 | In every directory that keeps the invariant, for every payload: accepted if and only if all its operations can be carried out in order, what they leave is free and allowed, and the step commits; then the user has just those attributes and the events report exactly the difference |
| `UserMeaning.PlainPostMeaning` | app/main.py:785-813 | The plain endpoint: accepted if and only if address, lengths and uniqueness are in order and the step commits, and then one row is stored as sent, the address in small letters |
| `UserMeaning.PayloadMeaning` | app/scim/provisioning.py:398-414 | A payload is read as its own members say: stripped and validated user name, display name or formatted name, active flag by default true, extension member by member |
| `UserMeaning.UnreadablePayload` | app/scim/provisioning.py:398-414 | And refused if and only if it cannot be read so |
| `UserMeaning.MutationStores` | app/services/enterprise_user_service.py:235-287 | An accepted mutation stores the desired values; the department follows a changed column, with the fallback for a cleared one; the events are the row event and one per changed column and manager; other users stay |
| `UserMeaning.ReportsAreRight` | app/services/enterprise_user_service.py:244-284 | Change list and events name exactly the columns and the manager that differ, with their new values, after the row entry, and are empty exactly when nothing differs |
| `UserDirectory.RowCreationKeepsVerdicts` | app/services/enterprise_user_service.py:211-233 | Inserting the empty profile row before validating does not alter what validation decides |
| `ScimPayloads.FoldMeansSequence` | app/scim/provisioning.py:417-575 | For every operation list: the folded patch is rejected with the same error as carrying the operations out in order, or its single application gives the same userName, displayName, active and six enterprise attributes; "remove displayName" uses the e-mail at the start of the request |
| `PatchMeaning.PatchCarriesOutAll` | app/scim/provisioning.py:430-437 | For every payload with an "Operations" array, wherever it stands among the members: all its items are carried out in order; their error is the refusal, or the user has the attributes they leave, and no other user changes |
| `PatchMeaning.OperationsAreAllItems` | app/scim/provisioning.py:425-435 | The operations are all items of that array; an empty one is refused |
| `PatchMeaning.OneAfterAnother` | app/scim/provisioning.py:430-435 | A list of operations works on what the operations before it have left |
| `PatchMeaning.UserNameOperation` | app/scim/provisioning.py:514-533 | On "username": add and replace with a valid address set it in small letters, anything else is refused |
| `PatchMeaning.DisplayNameOperation` | app/scim/provisioning.py:535-569 | On "displayname": add and replace set the stripped text of 1 to 100 characters, remove sets the e-mail at the start of the request |
| `PatchMeaning.ActiveOperation` | app/scim/provisioning.py:545-575 | On "active": add and replace set the boolean, remove sets false |
| `PatchMeaning.TextOperation` | app/scim/provisioning.py:578-618 | On each of the five text attributes, plainly or behind the schema, in any case: only that column changes, to null by remove or a null value, else to the stripped text |
| `PatchMeaning.ManagerOperation` | app/scim/provisioning.py:578-618 | On "manager" and "manager.value": only the manager changes, to null by remove or a null value, else to the positive id given plainly or under "value" |
| `PatchMeaning.ExtensionOperation` | app/scim/provisioning.py:585-595 | On the schema itself: remove clears all six attributes, otherwise exactly the members present are set |
| `PatchMeaning.PathlessOperation` | app/scim/provisioning.py:457-475 | Without a path, the members of the value are set one after another |
| `PatchMeaning.MalformedOperation` | app/scim/provisioning.py:446-512 | Non-objects, unknown verbs, removals without a path, pathless values that are no object, paths that are no string and paths that name no attribute are refused, each with its error |
| `PatchMeaning.PathMeaning` | app/scim/provisioning.py:610-618 | Which attribute a path names, ignoring case |
| `PatchMeaning.OtherPaths` | app/scim/provisioning.py:510-512 | Every other path names none |
| `PatchMeaning.ManagerReading` | app/scim/provisioning.py:760-778 | A manager value is read as null, an id, or the id under "value", the way int() reads numbers, booleans, fractions and texts |
| `PatchMeaning.ExtensionMeaning` | app/scim/provisioning.py:702-740 | An extension object sets exactly its own members and is refused exactly when one of them cannot be read |
| `ScimPayloads.ParsePatchPayload` | app/scim/provisioning.py:417-490 | The parser loops that rebind the patch compute the fold |
| `ScimPayloads.FoldIsGood` | app/scim/provisioning.py:417-575 | A folded patch only carries stripped texts of 1 to 100 characters, positive manager ids and lower-case user names |
| `EnterpriseProfiles.MergeIsSequential` | app/scim/provisioning.py:621-663 | Applying a merged mutation once equals applying the two mutations in order |
| `EnterpriseProfiles.NoChangeIffSame` | app/services/enterprise_user_service.py:235-265 | The change list is empty exactly when the row stays the same |
| `DirectoryLog.PatchMeansSequence` | app/scim/provisioning.py:304-395 | End to end: an accepted PATCH leaves the user as its operations in order would and every other user alone; a refused one changes nothing |
| `DirectoryLog.RunKeepsLog` | app/services/enterprise_user_service.py:193-287 | Over every run, replaying the published events from empty gives every enterprise profile |
| `DirectoryLog.ReachedLog` | app/services/enterprise_user_service.py:193-287 | From empty tables the event log alone always reconstructs every enterprise profile |
| `DirectoryLog.EventsTellTheWrite` | app/services/enterprise_user_service.py:235-287 | The events of one mutation turn every old profile into the new one |
| `ScimPayloads.ParseText` | app/scim/provisioning.py:743-757 | Accepted texts are null or stripped, non-empty and at most 100 characters |
| `ScimPayloads.ParseManager` | app/scim/provisioning.py:760-778 | Accepted manager values are null or positive ids; errors are invalidValue |
| `ScimPayloads.ParseExtension` | app/scim/provisioning.py:702-740 | An accepted extension is a well-formed mutation; absent members stay unset |
| `ScimPayloads.ParseUserPayload` | app/scim/provisioning.py:398-414 | An accepted payload has a lower-case user name and a well-formed extension |
| `ScimRoundTrip.PutBackIsIdentity` | app/scim/provisioning.py:209-301 | PUTting back the resource just read is accepted and changes and publishes nothing if and only if the validator turns the stored e-mail into itself and the stored name is stripped, non-empty and at most 100 characters |
| `ScimRoundTrip.ReachedPutBack` | app/scim/provisioning.py:209-301 | The same in every state reached from empty tables |
| `StoredNames.NameDecides` | app/scim/provisioning.py:781-811 | With a validator that takes its own results for what they are, in every reachable state the name alone decides: identity if and only if it is stripped, non-empty and at most 100 characters |
| `StoredNames.RunKeepsEmails` | app/scim/provisioning.py:781-788 | Over every run, every stored e-mail is one that the validator made |
| `StoredNames.PlainNames` | app/main.py:785-813 | After any run, the user that a successful call of the plain endpoint creates keeps the name unstripped and survives read and PUT if and only if the name is stripped |
| `StoredNames.LeadingSpaceIsLost` | app/schemas.py:92-104 | A failing input for every validator and every address it accepts: the name " Bob" |
| `StoredNames.RemovalStoresEmail` | app/scim/provisioning.py:555-575 | PATCH "remove displayName" is accepted and stores exactly the e-mail as the name, of whatever length |
| `StoredNames.RemovalThenPutBack` | app/scim/provisioning.py:555-575 | After that PATCH, in every reachable state, PUTting back is the identity if and only if the e-mail has at most 100 characters |
| `StoredNames.LongEmailIsLost` | app/scim/provisioning.py:555-575 | A failing run for every validator that accepts an address of more than 100 characters |
| `ScimRoundTrip.PutBackProfile` | app/services/enterprise_user_service.py:134-142 | For the enterprise extension alone it always holds: no validation error, same directory, empty change list, no events |
| `ScimRoundTrip.OwnValuesChangeNothing` | app/services/enterprise_user_service.py:197-287 | Writing the values already stored passes validation, changes no row and yields an empty change list and no events |
| `ScimRoundTrip.ExtensionParsesBack` | app/scim/users.py:55-96 | The rendered extension parses back to the stored columns and manager |
| `ScimRoundTrip.BuildExtension` | app/scim/users.py:55-96 | The dictionary built by successive inserts is the extension: non-null columns in order, then the manager; absent when empty |
| `ScimRoundTrip.ManagerShown` | app/scim/users.py:79-91 | The manager is shown with id and location, and with the name when the row exists |
| `ScimRoundTrip.LocationMeaning` | app/scim/users.py:11-12 | A location is the base URL without its trailing slashes and the path of the user |
| `Text.ParseDecimal` | app/services/user_service.py:47-56 | A rendered row id is parsed back to the same id |
| `Text.ParseSigned` | app/services/user_service.py:47-56 | Space around and a sign in front are read, as int() reads them |
| `Text.ParseRefuses` | app/services/user_service.py:47-56 | Any other character is refused |
| `Text.StripMeaning` | app/scim/provisioning.py:743-757 | Stripping cuts white space off both ends and nothing else |
| `Text.LowerMeaning` | app/services/user_service.py:58-61 | Capital letters become small ones, everything else stays |
| `EnterpriseUsers.FindUser` | app/services/user_service.py:47-56 | A user is found exactly when the path segment spells its id, the id is positive and the row exists |
| `AccessControl.RunAgrees` | app/main.py:944-1062 | In every reachable state live assignments have no duplicates and equal the replay of the succeeded grant and revoke events, with no redundant grant and no unfounded revoke in the log |
| `AccessControl.LiveMeansGranted` | app/main.py:944-1062 | Every live assignment was created by some legitimate grant of the run and has been live ever since |
| `AccessControl.GrantSucceedsIff` | app/main.py:898-1062 | A grant succeeds exactly when requester and target are active, the target is in Finance for finance-portal, the requester is a global administrator or the first permitting delegation has the rank the entitlement asks for, the assignment is new and the step commits |
| `AccessMeaning.GrantWrittenOut` | app/main.py:898-1062 | The same over the fields: a grant succeeds if and only if both users are active, the Finance rule holds, the requester has an administrator role by its spelling or is the delegate of the first active, unexpired row of an access-changing role whose scope id is the entitlement or its application, with an owner or administrator role for an administrator entitlement, and the assignment is new and committed |
| `AccessMeaning.RevokeWrittenOut` | app/main.py:1093-1250 | The corresponding condition for a revocation |
| `AccessMeaning.ForbiddenIff` | app/delegation/services.py:360-403 | A request over existing rows is forbidden if and only if the requester has no administrator role and no row reaches the entitlement |
| `AccessMeaning.ExpiredGivesNothing` | app/delegation/services.py:339-358 | Delegations that are inactive, or whose expiry is not after now, give nothing |
| `AccessMeaning.SoleDelegationDecides` | app/delegation/services.py:320-337 | A sole active delegation permits a grant if and only if its own expiry, role, scope and scope id do |
| `AccessMeaning.AuditMeaning` | app/main.py:925-1062 | The audit rows of each outcome, and none for a missing row or a refused commit |
| `AccessMeaning.RoleMeaning` | app/roles.py:12-24 | The spellings of each role after stripping, lower-casing and replacing dashes, the two legacy names included |
| `AccessControl.RevokeSucceedsIff` | app/main.py:1093-1250 | A revocation succeeds exactly when the requester is active and may change the entitlement, the assignment is live and the step commits; the state of the target does not matter |
| `AccessControl.PolicyMeaning` | app/policy_engine.py:22-144 | What the two ordered policies allow, as a condition without order |
| `AccessControl.HelpdeskAloneNeverSuffices` | app/main.py:925-942 | The policy would approve a help-desk requester, but without a permitting delegation the request is refused first |
| `AccessControl.EffectiveDelegationsAreUnique` | app/delegation/services.py:469-497 | With a clock that never goes back, no two effective delegations of a reachable state share delegate, scope and role |
| `AccessControl.RunNeverOverlaps` | app/delegation/services.py:156-243 | When a delegation was created, every earlier one with the same key was already ineffective, over every run |
| `AccessControl.AddingDelegationIsMonotone` | app/delegation/services.py:320-358 | Adding a delegation never turns a successful grant or revoke at the same instant into a failure |
| `AccessControl.OlderDelegationShadows` | app/delegation/services.py:320-358 | An older help-desk delegation hides a newer owner delegation on an administrator entitlement; removing it turns the refusal into a grant |
| `AccessControl.ShadowingIsReached` | app/delegation/services.py:320-358 | From empty tables, for every administrator entitlement outside the finance portal: a run after which the owner is refused until the older help-desk delegation is removed |
| `AccessControl.RunKeepsRowsUnique` | app/delegation/models.py:14-23 | Over every run, a delegation key has at most one active and at most one inactive row |
| `AccessControl.AssignSucceedsIff` | app/delegation/services.py:156-211 | After any run, an assignment succeeds if and only if delegate, expiry, role, scope and audit reference are in order, the step commits, and no active row, expired or not, has the key |
| `AccessMeaning.AssignWrittenOut` | app/delegation/services.py:156-211 | The same over the fields, with the roles that each scope admits and the row that it must name |
| `AccessMeaning.RemoveWrittenOut` | app/delegation/services.py:213-243 | The corresponding condition for a removal over the fields |
| `AccessMeaning.DelegationEffects` | app/delegation/services.py:156-243 | The row and the audit event that an accepted assignment or removal leaves; refused ones leave nothing |
| `AccessMeaning.EffectiveRowsDiffer` | app/delegation/services.py:469-497 | From the last request on, no two active and unexpired rows share delegate, scope, scope id and role |
| `AccessControl.RemoveSucceedsIff` | app/delegation/services.py:213-243 | After any run, a removal succeeds if and only if the row exists and is active, its scope has an audit reference, the step commits, and no inactive row has the key |
| `AccessControl.SecondRemovalNeverSucceeds` | app/delegation/services.py:213-243 | Once a key has been removed, no later row with that key can ever be removed, whatever happens in between |
| `AccessControl.SecondRemovalIsReached` | app/delegation/services.py:213-243 | From empty tables, for every entitlement and active user: assign, remove and assign succeed, and the next removal is refused by the database while the delegation stays effective |
| `AccessPolicy.LaterDelegationsDoNotDecide` | app/delegation/services.py:328-358 | The first permitting delegation of a longer list is that of the shorter one, if there is one |
| `AccessPolicy.FirstPermitting` | app/delegation/services.py:320-358 | The permitting delegation of the lowest id; none exactly when no delegation permits the change |
| `AccessService.Service.HasPermission` | app/delegation/services.py:320-358 | The scan returns the effective, covering, access-changing delegation of the lowest id |
| `AccessService.Service.AuthorizeAccessAction` | app/delegation/services.py:360-419 | Global administrators pass silently; otherwise one audit row says whether a delegation permits the action |
| `AccessService.Service.GrantAccess` | app/main.py:898-1062 | Keeps log agreement and the delegation rules; succeeds if and only if the grant is legitimate, new and committed, then adds exactly that assignment, and leaves the rows and audit events of its branch, or no trace when the commit is refused |
| `AccessService.Service.RevokeAccess` | app/main.py:1093-1250 | Keeps log agreement and the delegation rules; on success exactly that assignment is gone, otherwise all stay, with the audit events of its branch, or no trace when the commit is refused |
| `AccessService.Service.AssignDelegate` | app/delegation/services.py:156-211 | In this order refuses an unknown or inactive delegate, a past expiry, a role that does not fit the scope, a missing scope, an effective twin and a row the unique constraint forbids and a scope without audit reference; otherwise one row and one audit event, or nothing when the commit is refused |
| `AccessService.Service.RemoveDelegate` | app/delegation/services.py:213-243 | An active delegation becomes inactive with one audit event; an unknown or inactive one, a row the unique constraint forbids, or a refused commit, changes nothing |
| `Provisioning.Execute` | app/connectors/orchestrator.py:62-418 | Against any connector: ends after some n <= max_attempts attempts, each earlier one a retryable error and the last not, or none left; one new job row with attempt_count = n and retry_count = n-1; a returned result passed on unchanged, an exception recorded as RETRYABLE when it carries the flag and FAILED otherwise, with its message; exactly 3n+2 history entries, each spelled out; earlier rows untouched; the connector called n times, or never for a payload that cannot be dispatched |
| `Provisioning.RunAttempts` | app/connectors/orchestrator.py:116-418 | The retry loop: the attempts made, the calls used and the history appended |
| `Provisioning.LastAttempt` | app/connectors/retry.py:32-39 | The run ends at the first attempt that is not retried, and every earlier one is |
| `Provisioning.RetryableIffExhausted` | app/connectors/retry.py:32-39 | With exception types that carry the retryable flag and connectors that return only success or skipped, the status is RETRYABLE exactly when a retryable error hit the last allowed attempt |
| `Provisioning.ExecuteOnMock` | app/connectors/orchestrator.py:116-224 | One run over the mock with a fresh counter and a dispatchable payload, for every configuration: final status and number of calls. In success mode with k initial failures it succeeds exactly when k < max_attempts, after min(k+1, max_attempts) calls |
| `Provisioning.MockEndsSo` | app/connectors/mock.py:272-355 | How each mode ends a run: unsupported fails and disabled is skipped at once; retryable modes use up all attempts; the others end after the initial failures, if attempts are left |
| `Provisioning.RunDelaysBounded` | app/connectors/retry.py:41-56 | The delays recorded in the history of a run add up to the policy total, at most min(r * max_delay, base * (2^r - 1)) for r retries |
| `Provisioning.CallConnector` | app/connectors/orchestrator.py:420-484 | A payload that cannot be dispatched raises before the connector is reached; otherwise the next reply of the connector is used up |
| `Connectors.DispatchableMeaning` | app/connectors/orchestrator.py:420-484 | What each operation needs in its payload before the connector is called |
| `Provisioning.JobService.CreateJob` | app/services/provisioning_job_service.py:112-161 | One pending job and its history entry |
| `Provisioning.JobService.StartJob` | app/services/provisioning_job_service.py:163-195 | The job runs and its attempt count never falls; one history entry |
| `Provisioning.JobService.RecordRetry` | app/services/provisioning_job_service.py:334-381 | One more retry and its history entry with the delay; the status stays |
| `Provisioning.JobService.CloseJob` | app/services/provisioning_job_service.py:197-332 | The final status and counters, then the result entry and the closing entry |
| `RetryPolicies.DelaysNeverShrink` | app/connectors/retry.py:41-46 | Delays never shrink and never exceed the cap |
| `RetryPolicies.DelayDoubles` | app/connectors/retry.py:41-46 | The first delay is the base delay, every later one twice the one before, up to the cap |
| `RetryPolicies.TotalDelayBounded` | app/connectors/retry.py:41-46 | r delays total at most min(r * max_delay, base * (2^r - 1)), and exactly the geometric sum while the last delay is not capped |
| `Connectors.Connector.Call` | app/connectors/mock.py:272-316 | A call answers with the next reply of the connector and leaves the rest of its behaviour |
| `Connectors.Connector.CallMock` | app/connectors/mock.py:272-326 | Unsupported and disabled calls do not reach the counter; counted calls fail until the configured number has passed |
| `Certification.RunKeepsInv` | app/governance/services.py:134-323 | In every reachable state cached counters equal the rows, decisions and reviewed items correspond one to one, drafts have no items and completed campaigns none left to review |
| `Certification.ReachedCountersAgree` | app/governance/services.py:401-439 | In every reachable state: completed = approvals + revocations + abstentions <= total; a completed campaign has every item decided |
| `Certification.ReachedCountersCount` | app/governance/services.py:401-439 | In every reachable state the cached counters are the numbers of item rows, reviewed item rows, and decision rows of each value |
| `Certification.OutcomeMeaning` | app/governance/validation.py:4-24 | In every reachable state: a start succeeds exactly for a draft, a completion exactly for an active campaign whose items are all reviewed, a cancellation exactly for a draft or active one, and the status each leaves; refused calls change nothing |
| `Certification.CreateMeaning` | app/governance/services.py:134-176 | A campaign is created exactly when the name is free ignoring case and surrounding space and the reviewer exists; it is then the last row, a draft with the stripped name |
| `Certification.DecisionMeaning` | app/governance/services.py:521-597 | A decision is accepted exactly for an item of an active campaign, and is then the decision of that item, reviewed by the actor |
| `Certification.ReachedStartSnapshots` | app/governance/services.py:178-254 | In every reachable state, a start that succeeds adds exactly one unreviewed item per assignment present, in order, with the reviewer of the campaign; the campaign has no other items |
| `Certification.ReachedClosedCampaignsAreFrozen` | app/governance/validation.py:4-24 | From every reachable state on, a completed or cancelled campaign row, its items and its decisions never change again |
| `Certification.RunKeepsNames` | app/governance/services.py:382-389 | Over every run campaign names are stripped and differ ignoring case |
| `CertificationService.Service.CreateCampaign` | app/governance/services.py:134-176 | A name taken ignoring case, then a missing reviewer, is refused without a change; otherwise one draft campaign with the stripped name and zero counters is appended |
| `CertificationService.Service.CountItems` | app/governance/services.py:406-416 | The loops over the item rows count the items of the campaign and those completed |
| `CertificationService.Service.GroupDecisions` | app/governance/services.py:417-424 | The grouped count: each value chosen is mapped to its number of decisions, values nobody chose are absent |
| `CertificationService.Service.RecalculateCampaignCounts` | app/governance/services.py:401-439 | The counters stored from those loops, absent values read as zero, are the counts over the rows; nothing else changes |
| `CertificationService.Service.GenerateReviewItems` | app/governance/services.py:178-212 | The loop adds one item per assignment unless items exist already, then recounts |
| `CertificationService.Service.StartCampaign` | app/governance/services.py:214-254 | Keeps the invariant; only a draft starts, and then the items are the old ones plus one per assignment, total_items is their number and completed_items zero; refused calls change nothing |
| `CertificationService.Service.CompleteCampaign` | app/governance/services.py:256-292 | Keeps the invariant; after success every item of the campaign has a decision and the three decision counts add up to completed_items = total_items; an incomplete campaign stays as it was, with completed_items < total_items |
| `CertificationService.Service.CancelCampaign` | app/governance/services.py:294-323 | Only a draft or active campaign is cancelled; nothing but its status changes |
| `CertificationService.Service.SummarizeCampaign` | app/governance/services.py:369-376 | On valid tables recounting alters nothing, so reading a summary never changes a campaign |
| `CertificationService.Service.RecordDecision` | app/governance/services.py:521-597 | Keeps the invariant; only items of active campaigns accept a decision, which is inserted or replaced; the counters stored afterwards equal the rows and add up |
| `Remediation.RunKeepsWorld` | app/remediation/services.py:149-398 | Over every run: at most one job per item, each for a revoked item of a completed campaign and in a final status, with its own link |
| `Remediation.RemediationIsExact` | app/remediation/services.py:358-402 | After any run, remediating a completed campaign leaves exactly one job per revoked item and none for other items, keeps earlier jobs, and ends every new job |
| `Remediation.RemediationWrittenOut` | app/remediation/services.py:358-402 | After any run, over the rows: nothing happens unless the campaign is completed; afterwards exactly its items with a revoke decision have a job, each one |
| `Remediation.StatusMeaning` | app/remediation/services.py:230-243 | A success completes the job, a skipped operation skips it, anything else fails it |
| `Remediation.ReachedRerunCreatesNothing` | app/remediation/services.py:358-389 | After any run, any remediation and any further run, remediating the campaign again changes nothing |
| `Remediation.ReachedResultAccounts` | app/remediation/services.py:487-521 | After any run: revoked items plus skipped decisions of a completed campaign equal its total_items |
| `Remediation.LinksAreOwn` | app/remediation/services.py:572-580 | Over every run, jobs whose execution created a provisioning job link to exactly that job, pairwise different, whatever correlation ids they share |
| `Remediation.LinksPointHome` | app/remediation/services.py:572-580 | Over every run, every link points at an existing provisioning job with the correlation id of the remediation job |
| `Remediation.SharedLinkMeansEarlyFailure` | app/remediation/services.py:217-243 | Over every run, two jobs share a link only if they share the correlation id and the later one failed before a provisioning job was created for it |
| `RemediationLinks.SharedLinkIsReached` | app/remediation/services.py:318-325 | A run from empty tables that ends with a shared link: a completed campaign with two revoked items, remediated under one correlation id with the second item failing early |
| `RemediationLinks.SharesLinkIff` | app/remediation/services.py:318-325 | After any run, for any two items that one request gives jobs, the first creating a provisioning job and the later failing early: their links agree if and only if the correlation ids do and no item between them created a provisioning job with that id |
| `RemediationLinks.EarlyFailureLink` | app/remediation/services.py:318-325 | After any run, for every item that remediating a completed campaign gives a job, at any position of any list: if it fails early, its job is FAILED, linked to the newest provisioning job with its correlation id among those of before and those that earlier items of the request created, and linked to none if and only if no provisioning job of before and no earlier item of the request has that id |
| `RemediationLinks.NewJobOf` | app/remediation/services.py:370-382 | The new job of the item at any position: its correlation id, final status and link follow from its own execution and from what earlier items created |
| `RemediationLinks.RunItemsCreates` | app/remediation/services.py:370-382 | The item loop adds exactly the provisioning jobs of the executions that create one, in order, and afterwards an item has a job if and only if it had one or is listed |
| `Remediation.Latest` | app/remediation/services.py:572-577 | The provisioning job of the greatest id that carries the correlation id; none exactly when none does |
| `Remediation.RevokedItems` | app/remediation/services.py:487-509 | Exactly the items of the campaign with a revoke decision |
| `RemediationService.Service.ExecuteCampaign` | app/remediation/services.py:358-398 | The call equals the remediation step for some outcome of each execution; refused exactly when the campaign is not completed; the returned jobs are those of the revoked items |
| `RemediationService.Service.ExecuteItems` | app/remediation/services.py:370-382 | The loop returns existing jobs and creates and executes the missing ones |
| `RemediationService.Service.ExecuteJob` | app/remediation/services.py:208-243 | Runs the planned operation through the orchestrator against any connector; fails early exactly without a plan or a registered connector, otherwise one provisioning job with the planned operation and the correlation id ends with the status from which the status of the job follows, and its link |
| `RemediationService.Service.FindJobByReviewItem` | app/remediation/services.py:477-485 | Finds a job of the item; none exactly when there is none |
| `RemediationService.Service.CreateJob` | app/remediation/services.py:149-206 | Refuses an unknown item, an undecided or not revoked one, and a duplicate, each exactly in its case; otherwise one pending job with the type for its item |
| `RemediationService.Service.LinkProvisioningJob` | app/remediation/services.py:572-580 | Links to the newest provisioning job with the same correlation id, if any |
| `RemediationService.Service.FailJob` | app/remediation/services.py:318-356 | Links again, then fails the job |
| `RemediationService.PlansAreDispatchable` | app/remediation/services.py:532-570 | Whatever a job asks for passes the payload checks of the orchestrator |
| `RemediationService.OperationMeaning` | app/remediation/services.py:532-570 | Which connector, operation, user id, group id and entitlement a job is carried out with; none exactly for an application without connector or a membership job without group |
| `Groups.RunKeeps` | app/services/group_service.py:82-238 | Over every run of creates, replaces and patches: replaying the published events from empty gives the name and member set of every group; members are distinct existing users and names unique ignoring case |
| `GroupMeaning.AddingMembers` | app/services/group_service.py:204-206 | PATCH "add members": accepted if and only if the users are distinct, known and not members and the step commits; then exactly the old members followed by them, one event each |
| `GroupMeaning.RemovingMembers` | app/services/group_service.py:207-209 | PATCH "remove members": accepted if and only if the users are distinct known members and the step commits; then exactly the others stay, one event each |
| `GroupMeaning.ReplacingMembers` | app/services/group_service.py:202-203 | PATCH "replace members": accepted if and only if the users are distinct and known and the step commits; then exactly these, one event |
| `GroupMeaning.Renaming` | app/services/group_service.py:195-200 | PATCH on displayName: remove is refused; otherwise accepted if and only if the name is the old one or free ignoring case and the step commits; then exactly that name, with one event if it differs |
| `GroupMeaning.PatchInOrder` | app/services/group_service.py:194-211 | A patch of many operations means patching with them one after another, except that one fault undoes them all |
| `GroupMeaning.Creating` | app/services/group_service.py:82-115 | Create: accepted if and only if the name is free ignoring case, the users are distinct and known and the step commits; then that group under the next id with its events |
| `GroupMeaning.Replacing` | app/services/group_service.py:161-185 | Replace: the same condition for the name among the other groups; then exactly that name and these members, with their events |
| `GroupMeaning.MemberFaultMeaning` | app/services/group_service.py:338-356 | A duplicate is reported exactly when a user is listed twice, else an unknown user, else nothing |
| `Groups.AddingSucceedsIff` | app/services/group_service.py:204-206 | Adding a list succeeds exactly when it names distinct known users outside the group; they are appended in order with one event each |
| `Groups.RemovingSucceedsIff` | app/services/group_service.py:207-209 | Removing a list succeeds exactly when it names distinct known members; exactly the others stay |
| `Groups.WithoutUserMembers` | app/services/group_service.py:305-311 | Removing one member leaves exactly the others, without repeats |
| `Groups.FindGroup` | app/services/group_service.py:117-126 | A group is found exactly when the path segment spells its id, the id is positive and the row exists |
| `GroupService.Service.RequireDistinctUsers` | app/services/group_service.py:338-356 | The seen-set pass and the lookup pass report a duplicate first, then an unknown user, else nothing |
| `GroupService.Service.CreateGroup` | app/services/group_service.py:82-115 | A free name and good members give one group under a fresh id and one or two published events in order; otherwise, or when the commit is refused, nothing changes |
| `GroupService.Service.ReplaceGroup` | app/services/group_service.py:161-185 | Name and members replaced with their events in order, or the whole request undone when the name is taken, the members are refused or the database refuses it |
| `GroupService.Service.PatchGroup` | app/scim/group_provisioning.py:191-236 | All operations applied in order and published together; a failed patch, or one that the database refuses, changes nothing and publishes nothing |
| `GroupService.Service.ApplyOperations` | app/services/group_service.py:187-211 | The operation loop stops at the first fault and otherwise leaves the edited group and its events |
| `GroupService.Service.EditRows` | app/services/group_service.py:204-209 | The member loops add or remove one by one |
| `GroupService.Service.ReplaceRows` | app/services/group_service.py:320-336 | Clears and refills the member rows in order, with one event |
| `GroupService.Service.RenameRow` | app/services/group_service.py:277-289 | Same name: nothing happens; taken name: refused; otherwise renamed with one event |
| `GroupService.Service.AddRow` | app/services/group_service.py:291-303 | Unknown user, then duplicate member, then one row and one event |
| `GroupService.Service.RemoveRow` | app/services/group_service.py:305-318 | Unknown user or non-member refused; otherwise one row less and one event |
| `LikeFilter.ContainsMatchesSubstrings` | app/scim/filtering.py:111-115 | For all strings, fold functions included: the pattern built from v matches s if and only if v occurs in s up to folding |
| `LikeFilter.WildcardMeaning` | app/scim/filtering.py:111-115 | Unescaped, an underscore matches any one character and a percent sign any text |
| `LikeFilter.ChainedIsSinglePass` | app/scim/filtering.py:161-162 | The three chained replacements equal one pass that escapes each special character |
| `LikeFilter.EscapedPrefix` | app/scim/filtering.py:161-162 | An escaped text matches exactly itself, up to folding, and nothing else |
| `LikeFilter.LoweredContains` | app/scim/filtering.py:137-144 | The same where the database lowers both sides and then compares with case |
| `LikeFilter.BackslashMustComeFirst` | app/scim/filtering.py:161-162 | Escaping the backslash last would leave the wildcard active |
| `Metrics.HistogramState.Render` | app/observability.py:191-205 | Each bucket line shows the number of observations at most its bound; +Inf shows them all and equals the count |
| `Metrics.HistogramState.Observe` | app/observability.py:48-56 | One more observation in its smallest bucket, or above all; count and sum follow |
| `Metrics.Provider.RenderHistogram` | app/observability.py:186-205 | For every key, rendered counts equal counts over all observations made under that key, with the bounds of the first one |
| `Metrics.Provider.ObserveHistogram` | app/observability.py:131-151 | Every key keeps its own histogram; other keys are unaffected |
| `Metrics.SortedBoundsSorts` | app/observability.py:146-149 | The bucket bounds are the distinct given bounds in increasing order |
| `Metrics.AtMostMonotone` | app/observability.py:191-200 | Cumulative counts never shrink and never exceed the total |
| `Metrics.AtMostCounts` | app/observability.py:191-200 | The rendered count is the number of observations whose value is at most the bound |
| `TokenBudget.ApplyTokenBudget` | app/ai/budget.py:30-57 | Included items and counts are those of the greedy selection, evidence_tokens is the sum of their estimates and within what is available; the total stays within max_tokens if and only if the reserved share does |
| `TokenBudget.BudgetContext` | app/ai/context.py:20-28 | As the assembler calls it the estimated total never exceeds max_tokens, and the reserved share is a third of it or the estimate of the question plus 80, whichever is less |
| `TokenBudget.TakenIffFits` | app/ai/budget.py:40-46 | An item is kept exactly when it fits beside the better-ranked items kept |
| `TokenBudget.Maximal` | app/ai/budget.py:40-46 | No omitted item would still fit at the end |
| `TokenBudget.RankDecides` | app/ai/budget.py:40-46 | Any other affordable selection gives way at the first item where it differs |
| `TokenBudget.SelectKeepsRank` | app/ai/budget.py:40-46 | What is kept stays in rank order |
| `TokenBudget.EstimateMeaning` | app/ai/budget.py:8-12 | The estimate is the least number of four-character tokens that covers the stripped text |
| `TokenBudget.JoinMeaning` | app/ai/budget.py:15-27 | The text to be estimated is the non-empty parts with one space between any two |
| `TokenBudget.EvidenceMeaning` | app/ai/budget.py:15-27 | Title, description, reference and correlation id all count |

## Left out

- Routing, HTTP status codes, authentication, tokens, passwords, CORS and response rendering.
- SQL compilation, flush order and isolation: a request is one atomic step. A database refusal is the `commits` flag of access, delegation, user and group steps, reported after the request's own checks; where governance and remediation calls are refused by the database, the call is one that did not happen.
- Which requests the database refuses, apart from the unique constraint on delegations: other unique constraints, the order of deletes and inserts in one flush (a group PUT that keeps a member re-inserts its row) and column lengths are not modelled as rules; a refusal by any of them is a step that does not commit.
- Labels, references, properties, timestamps and correlation ids of graph nodes and edges, and the graph export.
- GraphQueries.BuildGraph: does not build the other node and edge families (groups, applications, connectors, governance, operations, audit), because no modelled query reads them.
- Review, provisioning, remediation and delegation history queries of the graph engine, which filter edges in the way the modelled queries do.
- UserDirectory.Service.CreateScimUser: does not model the SCIM audit rows, which nothing reads back.
- UserDirectory.Service.ReplaceScimUser: does not model the SCIM audit rows, which nothing reads back.
- UserDirectory.Service.PatchScimUser: does not model the SCIM audit rows, which nothing reads back.
- GroupService.Service.CreateGroup: does not model the SCIM audit rows, which nothing reads back.
- GroupService.Service.ReplaceGroup: does not model the SCIM audit rows, which nothing reads back.
- GroupService.Service.PatchGroup: does not model the SCIM audit rows, which nothing reads back.
- Provisioning.Execute: does not model runs without a database session, whose events are returned instead of stored, nor the audit rows of a run.
- RemediationService.Service.ExecuteJob: does not model an error raised after the provisioning job was created other than through the connector; the step functions in `Remediation` do (`RaisedLate`).
- E-mail validation is an arbitrary function; JSON payloads of users are decoded values, with numbers as integers or reals (no NaN or infinities); JSON payloads of groups are taken as already parsed into names and user ids.
- Case folding, white space and digits are those of ASCII; the contains operator is proved for every character-wise fold.
- Queries that take any one matching row (group name, user name, employee number) are modelled as "some other row matches", which is the same under the proven uniqueness.
- Several clock readings within one request are one instant.
- Domain events of access, delegation, provisioning, governance and remediation, and the audit rows of governance and remediation; user and group events are modelled.
- Campaign descriptions and decision comments.
- Durations, sleeping, tracing and metric counters other than histograms; floats are reals.
- The group service's add_member, remove_member and replace_members entry points: each is a patch with that one operation.
- Sorting, paging and listing, filter parsing, and filters other than the contains operator.
- Evidence collection, deduplication and ranking, prompts, conversations and language-model providers.
