# CAP-SU core, modelled in Dafny

CAP-SU is a browser front end for running a daily stand-up against Jira. This project models its core logic:

- **Session vault** (`src/lib/secureStorage.ts`): it stores text in session storage. Each entry is wrapped in an envelope carrying a timestamp, an "encrypted" flag and an optional deadline. Email and API token are sealed with AES-GCM. An entry whose session timeout or deadline has passed is purged when it is read or swept.
- **Application state** (`src/contexts/AppContext.tsx`): the reducer, the storage write each action triggers, loading and saving credentials, the Basic authorization header, and the people collected from a sprint's issues.
- **Stand-up picker** (`src/components/hooks/useStartSU.ts`): it draws team members at random without repetition and steps back and forth through the history of draws.
- **Ticket views**:
  - `BacklogTab.tsx`: filters, counts, the sort cycle and the sprint exclusion;
  - `TeamMembersTab.tsx`: a member's tickets ordered by priority and then status;
  - `TicketPopover.tsx` and `TicketCard.tsx`: comment rendering, colour classifiers and loading flags;
  - `utils/ticketUtils.ts`: status colours and ranks.
- **Request URLs** (`src/lib/apiUtils.ts`).

Modules:

- **Shared helpers:**
  - `Wrappers`: Option/Result.
  - `Seqs`: `Array.prototype.filter`/`find` with their specifications.
  - `Strings`: ASCII `toLowerCase`, `includes`, `trim`, `join`.
  - `Sorting`: a stable sort by an integer key, as ECMAScript 2019 requires of `Array.prototype.sort`.
  - `Hex` (the encoder of the vault, and its decoder as `match(/.{1,2}/g)` and `parseInt(…, 16)` of section 18.2.5 of ECMAScript 2024 read it, stored into a `Uint8Array`), `Base64` (`btoa`/`atob`, Table 1 of RFC 4648), `Json` (`JSON.stringify` and `JSON.parse` of flat string objects) and `Uri` (`encodeURIComponent` of section 15.1.3.4 of ECMAScript 5.1, with the matching decoder).
  - `Domain`: the Jira entities.
  - `Labels`: the keyword classifiers that three components copy, each defined once.
- **One module per core file:** `SecureStorage`, `AppContext`, `TicketUtils`, `StartSU`, `Backlog`, `TeamMembers`, `TicketPopover`, `TicketCard` and `ApiUtils`.

Inputs from outside the program are parameters:

- **Time:** the clock (`now`).
- **Randomness:**
  - the random salt and IV (`Entropy`);
  - the random draw (`pick`, a position below the length drawn from).
- **Build configuration:** the environment variables and the build mode (`dev`).
- **Storage failures:** whether session storage refuses a write.
- **Cryptography:** AES-GCM with PBKDF2 is a pair of functions (`Cipher`). `Sound` assumes only that opening what was sealed with the same password gives it back.

Classes model the objects whose state changes in place: the vault's storage (`SecureStorage.Vault`), the provider's state (`AppContext.Provider`), the picker's hook state (`StartSU.Picker`) and the backlog tab's filter and sort state (`Backlog.BacklogTab`).

## Model

| member | source | states |
|---|---|---|
| SecureStorage.MakeConfig | src/lib/secureStorage.ts:30-37 | the key is the environment's when non-empty, else the built-in default; the timeout is the configured number of minutes, 60 by default |
| SecureStorage.AgeInMinutes | src/lib/secureStorage.ts:111-113 | the session-age test in minutes over reals is the same as comparing the age with timeout × 60000 ms |
| SecureStorage.ExpiryIsFinal | src/lib/secureStorage.ts:106-114 | an envelope that has expired stays expired at every later time |
| SecureStorage.Encrypt | src/lib/secureStorage.ts:63-84 | the IV and the salt are written as 24 and 32 hex characters (12 and 16 random bytes) |
| SecureStorage.Decrypt | src/lib/secureStorage.ts:89-101 | decryption fails when a field is empty (nothing for `match` to find); with every field decodable, it fails only when the cipher rejects the bytes, which may come from text that is not hex |
| SecureStorage.DecryptEncrypt | src/lib/secureStorage.ts:63-101 | with a sound cipher, decrypting what was encrypted gives the plaintext back |
| SecureStorage.BlobRoundTrip | src/lib/secureStorage.ts:126 | parsing the JSON of the encrypted form gives it back |
| SecureStorage.NewItem | src/lib/secureStorage.ts:119-135 | the envelope holds the time of writing and the encrypted flag; the value is the text itself when not encrypted; a deadline exists exactly when `expiresIn` is non-zero and is now + 1000 × expiresIn |
| SecureStorage.AfterRead | src/lib/secureStorage.ts:146-172 | a read removes its key exactly when it purges it and leaves every other key as it was |
| SecureStorage.SetThenRead | src/lib/secureStorage.ts:119-172 | an envelope read back before it expires gives the stored text, decrypted when it was encrypted |
| SecureStorage.NewItemLifetime | src/lib/secureStorage.ts:106-135 | a new envelope is live exactly while within the session timeout and, when it has a deadline, not past it |
| SecureStorage.Swept | src/lib/secureStorage.ts:205-223 | the sweep adds nothing, removes exactly the keys it selects (non-empty keys holding an expired envelope or non-empty unparsable text), and leaves every kept envelope unchanged |
| SecureStorage.SweepIdempotent | src/lib/secureStorage.ts:205-223 | a second sweep at the same time removes nothing more |
| SecureStorage.SweepKeepsReadable | src/lib/secureStorage.ts:205-223 | the sweep keeps, unchanged, every key a read would return a value for |
| SecureStorage.SweepKeepsCorruptCiphertext | src/lib/secureStorage.ts:205-223 | the sweep does not decrypt: every live encrypted envelope whose value is not an encrypted form, or does not decrypt, survives it unchanged, although a read purges it |
| SecureStorage.ProjectRoundTrip | src/lib/secureStorage.ts:272-284 | parsing the JSON of a project gives it back |
| SecureStorage.AfterProjectRead | src/lib/secureStorage.ts:281-290 | reading the project changes no other key, and changes nothing when a project is returned |
| SecureStorage.Write | src/lib/secureStorage.ts:136 | a write sets its key unless refused and changes no other key |
| SecureStorage.CredentialsEncryption | src/lib/secureStorage.ts:228-237 | only the email and the API token are stored encrypted; the project name and domain are stored as given |
| SecureStorage.CredentialsRoundTrip | src/lib/secureStorage.ts:228-261 | within the session timeout, the credentials read back are those stored |
| SecureStorage.CredentialPurgesInTurn | src/lib/secureStorage.ts:248-253 | the keys the four reads purge are the union of what each purges alone |
| SecureStorage.Vault.constructor | src/lib/secureStorage.ts:30-37 | the configuration from the environment over the storage's current contents |
| SecureStorage.Vault.SetItem | src/lib/secureStorage.ts:119-141 | a refused write fails with the storage error and changes nothing; otherwise the key holds the new envelope |
| SecureStorage.Vault.GetItem | src/lib/secureStorage.ts:146-172 | the value read and the storage after the read, with an expired or unreadable envelope removed |
| SecureStorage.Vault.RemoveItem | src/lib/secureStorage.ts:177-179 | the key is gone and nothing else changes |
| SecureStorage.Vault.Clear | src/lib/secureStorage.ts:184-186 | the storage is empty |
| SecureStorage.Vault.GetKeys | src/lib/secureStorage.ts:191-200 | exactly the stored non-empty keys that start with the prefix, each once |
| SecureStorage.Vault.Cleanup | src/lib/secureStorage.ts:205-223 | the storage after the sweep |
| SecureStorage.Vault.SetCredentials | src/lib/secureStorage.ts:228-237 | succeeds exactly when no write is refused; the storage holds every write that was not refused |
| SecureStorage.Vault.GetCredentials | src/lib/secureStorage.ts:242-261 | each credential as read, the empty string when missing or unreadable; the unreadable keys are purged |
| SecureStorage.Vault.SetSelectedProject | src/lib/secureStorage.ts:266-276 | an invalid project is a validation error and changes nothing; a valid one is stored; none removes the key |
| SecureStorage.Vault.GetSelectedProject | src/lib/secureStorage.ts:281-290 | the parsed project, with text that is not a project removed |
| SecureStorage.SelectedProjectRoundTrip | src/lib/secureStorage.ts:266-290 | a valid project stored and read back within the session timeout is returned |
| SecureStorage.CredentialsRoundTripClient | src/lib/secureStorage.ts:228-261 | credentials stored and read back within the session timeout are returned |
| Hex.EncodeShape | src/lib/secureStorage.ts:73-82 | the hex text has two lowercase hex digits per byte |
| Hex.UnitsOf | src/lib/secureStorage.ts:92-94 | a character below U+10000 is one UTF-16 code unit, any other a high and a low surrogate from which the code point is recovered |
| Hex.Decode | src/lib/secureStorage.ts:92-94 | decoding fails exactly when `/.{1,2}/g` finds no piece in the UTF-16 code units (empty text, or line terminators only); otherwise one byte per piece, whether the piece is hex or not |
| Hex.Pieces | src/lib/secureStorage.ts:92-94 | every match of `/.{1,2}/g`, which has no `u` flag, holds one or two code units |
| Hex.PiecesCover | src/lib/secureStorage.ts:92-94 | the pieces, joined, are the code units with the line terminators removed |
| Hex.PiecesOneLine | src/lib/secureStorage.ts:92-94 | no piece holds a line terminator |
| Hex.ToUint8 | src/lib/secureStorage.ts:92-94 | storing NaN in a `Uint8Array` gives 0, any other integer is kept modulo 256 |
| Hex.ParseOne | src/lib/secureStorage.ts:92-94 | `parseInt` of one hex digit unit, either case, is its value |
| Hex.ParseTwo | src/lib/secureStorage.ts:92-94 | `parseInt` of two hex digits is sixteen times the first plus the second |
| Hex.PieceBytesEncode | src/lib/secureStorage.ts:73-94 | the pieces of an encoding, each parsed and stored, are the bytes encoded |
| Hex.NonHexPieces | src/lib/secureStorage.ts:92-94 | text that is not hex still decodes: for a character `x` below U+10000 that no number starts with, "xx" gives the byte 0 (NaN), and a digit followed by `x` gives that digit's value |
| Hex.SupplementaryPieces | src/lib/secureStorage.ts:92-94 | a character outside the Basic Multilingual Plane is two code units: after a digit its surrogate pair is split between two pieces, so the text gives the digit's value and a 0 |
| Hex.DecodeEncode | src/lib/secureStorage.ts:73-94 | decoding the hex text of a non-empty byte sequence gives it back |
| Hex.SaltAndIvLengths | src/lib/secureStorage.ts:65-66 | a 16-byte salt and a 12-byte IV encode to 32 and 24 characters |
| Hex.OddLengthTail | src/lib/secureStorage.ts:92-94 | after text of an even number of UTF-16 code units without line terminators, a single digit `d` decodes to the same bytes as `0d`, so two different texts decode alike |
| Hex.OddUnitsTail | src/lib/secureStorage.ts:92-94 | the same on code units: after an even number of units, `d` and `0d` give the same bytes |
| Json.QuoteParses | src/lib/secureStorage.ts:126 | parsing `JSON.stringify` of a string gives the string back, whatever follows |
| Json.StringifyParses | src/lib/secureStorage.ts:136 | parsing `JSON.stringify` of a flat string object gives every member back in order |
| Json.Lookup | src/lib/secureStorage.ts:151 | a field is found exactly when some member has its name |
| Json.LookupUnique | src/lib/secureStorage.ts:151 | a name that occurs once is read as its own value |
| Base64.SextetValue | src/contexts/AppContext.tsx:214 | an alphabet character's value maps back to the character |
| Base64.Encode | src/contexts/AppContext.tsx:214 | four characters for every started group of three bytes |
| Base64.DecodeEncode | src/contexts/AppContext.tsx:214 | decoding the encoding of any byte sequence gives it back |
| Base64.Btoa | src/contexts/AppContext.tsx:214 | `btoa` succeeds exactly on Latin-1 text |
| Base64.AtobBtoa | src/contexts/AppContext.tsx:214 | `atob` undoes `btoa` |
| AppContext.Replace | src/contexts/AppContext.tsx:129-135 | the issue list keeps its length |
| AppContext.ReplacePointwise | src/contexts/AppContext.tsx:129-135 | the issue with the payload's id becomes the payload and every other issue is kept |
| AppContext.ReplaceIdempotent | src/contexts/AppContext.tsx:129-135 | updating twice with the same issue is updating once |
| AppContext.ReduceFrame | src/contexts/AppContext.tsx:103-145 | an action changes only the fields it is declared to write; an unrecognised action changes nothing |
| AppContext.ReduceWritesPayload | src/contexts/AppContext.tsx:103-145 | each `SET_*` action writes its payload into its field; an issue update replaces the issue with the payload's id |
| AppContext.ReduceOverwrites | src/contexts/AppContext.tsx:103-145 | every action except an issue update writes values independent of the old state; selecting a project clears the sprints and the selected sprint |
| AppContext.ReduceIdempotent | src/contexts/AppContext.tsx:103-145 | dispatching the same action twice is dispatching it once |
| AppContext.ApplyAppend | src/contexts/AppContext.tsx:103-145 | dispatching two runs of actions is dispatching their concatenation |
| AppContext.PersistenceEncryption | src/contexts/AppContext.tsx:105-122 | the email and the token are written encrypted, the project name in plain text; only the four credential and project actions write |
| AppContext.PersistedReadsBack | src/contexts/AppContext.tsx:105-116 | after an accepted credential action, reading the key within the timeout gives the value the state now holds |
| AppContext.LoadActions | src/contexts/AppContext.tsx:170-181 | one action per non-empty credential and one for a stored project, nothing else |
| AppContext.LoadRestores | src/contexts/AppContext.tsx:164-187 | loading from the initial state restores the credentials and the project and leaves the rest initial |
| AppContext.GetAuthHeader | src/contexts/AppContext.tsx:212-216 | no header unless both the email and the token are set; an error exactly when their joined text is not Latin-1 |
| AppContext.SplitAtColon | src/contexts/AppContext.tsx:214 | the user-id has no colon and the text is the user-id, a colon and the password |
| AppContext.AuthHeaderDecodes | src/contexts/AppContext.tsx:212-216 | a server decoding the header per section 2 of RFC 7617 recovers the email and the token when the email has no colon |
| AppContext.Dedup | src/contexts/AppContext.tsx:383-395 | the kept people have exactly the account ids of the candidates |
| AppContext.DedupDistinct | src/contexts/AppContext.tsx:383-395 | no two people kept share an account id |
| AppContext.DedupFirstSeen | src/contexts/AppContext.tsx:383-395 | every person kept is the first one named with that account id |
| AppContext.UniquePeopleCovers | src/contexts/AppContext.tsx:383-395 | every assignee and reporter has its account id among the people, and each person is named by some issue |
| AppContext.ExtractPeople | src/contexts/AppContext.tsx:383-395 | the loop computes the assignees and reporters in first-seen order, one per account id |
| AppContext.Provider.constructor | src/contexts/AppContext.tsx:89-101 | the initial state |
| AppContext.Provider.Dispatch | src/contexts/AppContext.tsx:103-145 | the reducer's new state and the storage write it triggers |
| AppContext.Provider.DispatchAll | src/contexts/AppContext.tsx:103-145 | dispatching in order: the folded state and storage |
| AppContext.Provider.LoadStoredData | src/contexts/AppContext.tsx:164-187 | reads the credentials and the project, then dispatches the load actions |
| AppContext.Provider.SaveCredentials | src/contexts/AppContext.tsx:192-209 | saved exactly when no write is refused; on success the three credentials are dispatched, whose writes draw fresh random bytes, otherwise the error is recorded |
| AppContext.SaveOutcome | src/contexts/AppContext.tsx:192-209 | a failed save only sets the error message |
| TicketUtils.StatusPriority | src/components/utils/ticketUtils.ts:40-70 | the rank lies between 1 and 6 |
| TicketUtils.StatusPriorityCaseInsensitive | src/components/utils/ticketUtils.ts:3-70 | colour and rank depend only on the lower-cased name |
| TicketUtils.StatusRanking | src/components/utils/ticketUtils.ts:40-70 | in progress 1, review 2, done 3, blocked 4, to do 5; testing and unknown statuses 6, in both directions |
| TicketUtils.TestingRanksWithUnknown | src/components/utils/ticketUtils.ts:21-25 | testing statuses have a colour of their own but rank with unknown ones |
| TicketUtils.EpicName | src/components/utils/ticketUtils.ts:72-81 | the epic's non-empty name, else the parent's non-empty summary, else none |
| TicketUtils.SortTicketsByStatus | src/components/utils/ticketUtils.ts:83-87 | a permutation of the tickets sorted by status rank |
| TicketUtils.SortTicketsStable | src/components/utils/ticketUtils.ts:83-87 | tickets of equal rank keep their order |
| Sorting.SortByKey | src/components/utils/ticketUtils.ts:84-86 | sorted by the key and a permutation of the input |
| Sorting.SortStable | src/components/utils/ticketUtils.ts:84-86 | elements with equal keys keep their input order |
| Sorting.SortSorted | src/components/utils/ticketUtils.ts:84-86 | a sorted sequence is its own sort |
| StartSU.WithoutMembers | src/components/hooks/useStartSU.ts:108 | removing an id keeps exactly the people with another id |
| StartSU.WithoutAt | src/components/hooks/useStartSU.ts:108 | with distinct ids, removing the id of a position removes exactly that position |
| StartSU.DrawKeepsTeam | src/components/hooks/useStartSU.ts:98-108 | after a draw, the history and the members left are still the team |
| StartSU.PoolDistinct | src/components/hooks/useStartSU.ts:94-109 | the members not yet drawn have distinct ids |
| StartSU.Picker.constructor | src/components/hooks/useStartSU.ts:17-41 | the first render and its effect: with a team, the drawn member is selected and removed from those available |
| StartSU.Picker.SyncWithPeople | src/components/hooks/useStartSU.ts:26-42 | with a team and no history, the drawn member is selected; otherwise nothing changes; the invariant is kept |
| StartSU.Picker.SelectNewMember | src/components/hooks/useStartSU.ts:94-109 | appends the drawn member to the history, selects it and removes its id from those available; nothing when none is available |
| StartSU.Picker.Start | src/components/hooks/useStartSU.ts:111-126 | nothing while animating or with none available; with a selection, the draw waits for the animation; otherwise it happens at once |
| StartSU.Picker.Prev | src/components/hooks/useStartSU.ts:128-138 | when not at the first entry and not animating, the step back waits for the animation |
| StartSU.Picker.Next | src/components/hooks/useStartSU.ts:140-150 | when not at the last entry and not animating, the step forward waits for the animation |
| StartSU.Picker.Reset | src/components/hooks/useStartSU.ts:152-164 | unless animating, the reset waits for the animation |
| StartSU.Picker.FinishAnimation | src/components/hooks/useStartSU.ts:118-163 | runs the pending step, whether a draw, a move to the index or a full reset, and ends the animation, keeping the invariant |
| StartSU.MemberTickets | src/components/hooks/useStartSU.ts:85-92 | none without a selection; otherwise exactly the issues assigned to the selected member |
| StartSU.SortedMemberTickets | src/components/hooks/useStartSU.ts:166 | a permutation of the member's tickets, sorted by status rank |
| StartSU.ActiveSprint | src/components/hooks/useStartSU.ts:75-82 | the first active sprint of the list, none exactly when no sprint is active |
| Labels.SubTaskColoredAsTask | src/components/TicketPopover.tsx:50-67 | "Sub-task" is coloured as a task |
| Labels.TypeColorCaseInsensitive | src/components/TicketCard.tsx:54-71 | a type name and its lower-cased form are coloured alike |
| Labels.TypeColorIntendedDiffers | src/components/BacklogTab.tsx:395-412 | the reordered chain colours sub-tasks yellow and otherwise agrees with the chain as written |
| Labels.VeryHighBeforeHigh | src/components/TicketPopover.tsx:86-101 | "very high" gets the darker red although it contains "high" |
| Labels.LowestColoredAsLow | src/components/TicketCard.tsx:90-105 | "lowest" is never grey; grey is reached only through "would" |
| Labels.LowestIsBlue | src/components/TicketPopover.tsx:94-97 | "Lowest" is coloured as "Low" |
| Labels.PriorityColorIntendedDiffers | src/components/TicketPopover.tsx:86-101 | the reordered chain colours "lowest" grey and otherwise agrees with the chain as written |
| Labels.HighestBeforeHigh | src/components/BacklogTab.tsx:361-374 | the badge of a "highest" priority is red, not orange |
| Labels.PriorityRank | src/components/BacklogTab.tsx:146-151 | the rank of an exact priority name in the table, 5 exactly for a name not in it |
| Backlog.EpicLabel | src/components/BacklogTab.tsx:199 | never empty: "No Epic" stands for a missing epic |
| Backlog.AssigneeLabel | src/components/BacklogTab.tsx:205 | never empty: "Unassigned" stands for a missing assignee |
| Backlog.FilterTickets | src/components/BacklogTab.tsx:183-232 | exactly the tickets that pass every filter and the search, none added |
| Backlog.FilterTicketsAppend | src/components/BacklogTab.tsx:183-232 | filtering keeps the tickets' relative order |
| Backlog.NoFiltersShowAll | src/components/BacklogTab.tsx:73-80 | with the filters reset, every ticket is shown in order |
| Backlog.BlankSearchMatchesAll | src/components/BacklogTab.tsx:211 | a search of white space only filters nothing out |
| Backlog.NextSort | src/components/BacklogTab.tsx:305-322 | a consistent configuration on the clicked column; another column starts ascending |
| Backlog.SortCycle | src/components/BacklogTab.tsx:305-322 | three clicks on the same column go ascending, descending and back to where they started |
| Backlog.BacklogTab.constructor | src/components/BacklogTab.tsx:66-72 | no filters and both tables unsorted |
| Backlog.BacklogTab.ResetFilters | src/components/BacklogTab.tsx:73-80 | every filter back to its initial value, the sorting untouched |
| Backlog.BacklogTab.HandleSort | src/components/BacklogTab.tsx:305-322 | the clicked table's configuration advances and the other table's is untouched |
| Backlog.SortTickets | src/components/BacklogTab.tsx:124-180 | the input itself when unsorted; otherwise a permutation ordered ascending or descending by the column |
| Backlog.SortTicketsStable | src/components/BacklogTab.tsx:124-180 | tickets that tie on the column keep their order |
| Backlog.Bump | src/components/BacklogTab.tsx:237-240 | one more for the value, the others unchanged, the entries still distinct and positive |
| Backlog.TallyCounts | src/components/BacklogTab.tsx:236-241 | each value is counted exactly, and the counts add up to the number of tickets |
| Backlog.WithCounts | src/components/BacklogTab.tsx:243-247 | the first entry is "all" with the number of tickets |
| Backlog.WithCountsSums | src/components/BacklogTab.tsx:235-303 | after "all": distinct values whose counts are the number of tickets carrying each |
| Backlog.ExcludeSprint | src/components/BacklogTab.tsx:106-109 | exactly the fetched tickets whose id is not the id of a sprint ticket |
| Backlog.ExcludeNothing | src/components/BacklogTab.tsx:106-109 | with no sprint tickets the backlog is every fetched ticket |
| TeamMembers.StatusRank | src/components/TeamMembersTab.tsx:39 | the rank of an exact status name in the table, 5 exactly for a name not in it |
| TeamMembers.MemberKeyLexicographic | src/components/TeamMembersTab.tsx:40-51 | the combined key orders by priority first, then status |
| TeamMembers.MemberTickets | src/components/TeamMembersTab.tsx:31-53 | none without a member; otherwise a permutation of the member's tickets ordered by priority and then status |
| TeamMembers.MemberTicketsStable | src/components/TeamMembersTab.tsx:37-52 | tickets with equal priority and status keep their order |
| TeamMembers.SelectMember | src/components/TeamMembersTab.tsx:55-58 | the first person with the account id, none exactly when nobody has it |
| TicketPopover.ExtractTextAppend | src/components/TicketPopover.tsx:133-144 | the text of two runs of nodes is the text of each, joined |
| TicketPopover.ExtractTextIsLeaves | src/components/TicketPopover.tsx:133-144 | the text is the text nodes' strings in document order and nothing else |
| TicketPopover.RenderCommentBody | src/components/TicketPopover.tsx:126-152 | HTML as such, a document as its text, anything else as the fallback, each in both directions |
| TicketPopover.HandleOpenChange | src/components/TicketPopover.tsx:160-165 | the popover follows the request and fetches comments exactly on opening with none cached |
| TicketCard.IsLoading | src/components/TicketCard.tsx:135 | busy exactly when either flag for the ticket is set |
| TicketCard.IsLoadingLocal | src/components/TicketCard.tsx:135 | flags of other tickets do not change this card |
| TicketCard.FetchesTransitions | src/components/TicketCard.tsx:113-121 | transitions are fetched exactly when the drop-down opens with none cached |
| Uri.Utf8RoundTrip | src/lib/apiUtils.ts:29 | a code point's UTF-8 bytes decode back to it |
| Uri.NoQueryDelimiters | src/lib/apiUtils.ts:29 | the encoding holds no `/`, `?`, `&`, `#` or `=` |
| Uri.DecodeEncode | src/lib/apiUtils.ts:29 | decoding the encoding of any string gives it back |
| ApiUtils.ApiBaseUrl | src/lib/apiUtils.ts:6-14 | empty exactly in development, the proxy prefix otherwise |
| ApiUtils.BuildApiUrl | src/lib/apiUtils.ts:21-31 | the path itself in development; otherwise the proxy prefix followed by the encoded path |
| ApiUtils.ProductionNoDelimiters | src/lib/apiUtils.ts:27-29 | after the prefix, a production URL holds no character that delimits a query parameter |
| ApiUtils.ProductionRoundTrip | api/proxy.js:16 | the proxy reads back exactly the path given |
| AppContext.Reduce | src/contexts/AppContext.tsx:103-145 | an unrecognised action returns the state unchanged, and no action but `SET_ISSUES` changes the number of issues (an update replaces in place) |
| AppContext.PersistenceOf | src/contexts/AppContext.tsx:105-122 | the reducer writes items only under the project-name, token and email keys, and writes the selected project only for `SET_SELECTED_PROJECT` |
| AppContext.UniquePeople | src/contexts/AppContext.tsx:383-395 | the people have exactly the account ids of the assignees and reporters, and no two share one |
| TicketUtils.StatusColor | src/components/utils/ticketUtils.ts:3-38 | a status ranks last in `getStatusPriority` exactly when it is coloured purple (testing) or grey (unknown) |
| Labels.TypeColor | src/components/TicketPopover.tsx:50-67 | the colour is one of red, blue, green, purple, orange and grey: no issue type is coloured yellow, as the sub-task branch is dead |
| Labels.PriorityColor | src/components/TicketPopover.tsx:86-101 | a priority is red, dark or light, exactly when its lower-cased name mentions "high", "critical" or "must" |
| Labels.BadgeColor | src/components/BacklogTab.tsx:361-374 | a badge is red or orange exactly when the lower-cased priority mentions "high", "critical" or "major" |
| TicketPopover.ExtractText | src/components/TicketPopover.tsx:133-144 | nodes that are neither text nor have children give no text, and a lone text node gives its text (a missing text gives "") |
| SecureStorage.Expired | src/lib/secureStorage.ts:106-114 | expired exactly when past a non-zero `expiresAt`, or when the age in minutes, a real division, exceeds the session timeout |
| SecureStorage.ReadEntry | src/lib/secureStorage.ts:146-172 | nothing is read exactly from a missing key or an empty text; a value comes only from a live envelope, and is the stored text itself when not encrypted |
| SecureStorage.WarnsDefaultKey | src/lib/secureStorage.ts:30-36 | the constructor warns exactly when no key is configured or the configured key is the built-in key's own text |
| Backlog.Matches | src/components/BacklogTab.tsx:183-232 | with every drop-down on 'all', a ticket passes exactly when the search matches it |
| Backlog.Tally | src/components/BacklogTab.tsx:236-241 | distinct values with positive counts; TallyCounts states the counts |
| Uri.EncodeURIComponent | src/lib/apiUtils.ts:29 | the encoding is never shorter than the text, and text of unescaped characters only is left as it is |
| Uri.DecodeURIComponent | api/proxy.js:16 | the result is never longer than the text, and text with no `%` decodes to itself |
| Json.Stringify | src/lib/secureStorage.ts:136 | the text opens with `{`; StringifyParses states that it parses back |
| Json.ParseObject | src/lib/secureStorage.ts:151 | only text that opens with `{` parses |
| ApiUtils.PathParameter | api/proxy.js:16 | a path is read only from a URL that starts with the proxy prefix; ProductionRoundTrip states that it reads back the path given |

## Left out

- Cryptography: AES-GCM, PBKDF2 and the Web Crypto calls are an abstract `Cipher`. `Sound` assumes only that the cipher opens what it sealed with the same password, and that a sealed text is never empty.
- Randomness: `crypto.getRandomValues` is supplied as the `Entropy` parameter, and `Math.random` as the `pick` parameter.
- Time: each operation reads one `now`. `Date.now()` is read once per call, although `setItem` reads it twice.
- Timers: the `setInterval` sweep, the unload sweep and the start-up sweep of `secureStorage.ts` are left out. The model has `Cleanup` but not the timers that call it.
- AppContext.Provider.DispatchAll: one batch of actions uses one salt and IV for its email writes and one for its token writes, so a batch that writes the same encrypted key twice reuses them.
- Concurrency: `Promise.all` of four reads or writes is modelled as the four calls in order. Each call touches its own key, so the outcome is the same.
- Logging and exceptions: `console.warn`/`console.error` are left out. `SecureStorage.WarnsDefaultKey` states when the warning is given. Exceptions are `Result` errors.
- `SecureStorage.MakeConfig`: the timeout is given as a parsed integer, so a `parseInt` that gives NaN is not modelled.
- JSON: the model parses only the text `JSON.stringify` writes, with no white space and fields in insertion order. Other JSON the browser would accept is treated as unparsable.
- Object keys: quirks of JavaScript objects are not modelled. A status or priority named like an `Object.prototype` member would read an inherited value.
- `Backlog.Tally`: lists values in first-seen order. `Object.entries` would put integer-like keys first.
- `Backlog.ColumnValue`: `localeCompare` becomes a caller-supplied rank function, `collate`, whose order is the collation order. Ties in the locale order are ties of the rank.
- Lower-casing: `Strings.ToLower` lower-cases ASCII letters only. `toLowerCase` also folds other scripts.
- Surrogates: a Dafny `char` is a Unicode scalar value, so text never holds a lone surrogate. `Uri.EncodeURIComponent` therefore never meets one, and its `URIError` path is not modelled. `Hex.Decode` reads the UTF-16 code units of its text, so a surrogate pair is split as in the browser, but a stored text holding a lone surrogate is not modelled.
- `ApiUtils.PathParameter`: does not turn `+` into a space as a query-string parser does. The encoding never produces `+`.
- Domain data: a `Project` has the three fields the vault checks. A missing priority or status name is modelled as the empty string. A missing domain in `getCredentials` is modelled as `""`.
- `StartSU.Picker`: the team (`people`) is fixed for the lifetime of a picker. A new team while the history is non-empty is not modelled.
- Animations: each 300 ms animation is one atomic step. The button sets `pending`, and `FinishAnimation` runs the delayed callback. Interleavings with other renders are not modelled.
- `AppContext.Provider.LoadStoredData`: the `catch` branch that clears the storage is unreachable in the model, because the reads do not throw.
- Network fetches: the fetches of sprints, issues, projects, comments and transitions are left out, with the icons and the JSX rendering. Only the data they produce is modelled.

## Findings

| source | as written | input that shows it | evidently intended | confidence | as-written member | corrected member |
|---|---|---|---|---|---|---|
| src/components/TicketPopover.tsx:58-63 (same chain in TicketCard.tsx:54-71 and BacklogTab.tsx:395-412) | `task` is tested before `sub-task`/`subtask`, so the yellow branch is dead | issue type "Sub-task" is coloured green | sub-tasks coloured yellow | high; not executed | Labels.SubTaskColoredAsTask | Labels.TypeColorIntendedDiffers |
| src/components/TicketPopover.tsx:90-97 (same chain in TicketCard.tsx:90-105) | `low` is tested before `lowest`, so "lowest" never reaches grey | priority "Lowest" is coloured blue like "Low" | "Lowest" coloured grey | medium; not executed | Labels.LowestIsBlue | Labels.PriorityColorIntendedDiffers |
