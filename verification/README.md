# A verified model of a networked file system's editor and name server

The system is a name server, several storage servers, and clients. This project models its two
stateful cores and proves what they keep, over all inputs and all runs.

**The collaborative editor of a storage server.** A document is words; words form sentences, a
sentence ending at a word whose last character is `.`, `!` or `?`. A client locks one sentence with
WRITE, inserts words into a private draft, and commits with ETIRW. The commit parses the live file
and the draft again and takes only the locked sentence from the draft. Around it stand a linked list
of locks, a backup and undo log kept as text, and write-once checkpoints.

**The name server's directory and its mirror on the storage servers.** A trie of mutable nodes maps
file names to records; a 16-slot cache stands in front of it; storage servers take reusable slots and
their files are purged when they die. Access lists are kept twice, in the name server's memory and in
each storage server's table, which is written to a comma-separated text file after every change.

## How it is built

| files | contents |
|---|---|
| `Text`, `Sentences`, `Decimal` | `strtok` tokens, the sentence parsers, `%ld` printing and `atol` |
| `Editing`, `Editor` | insertion and merge as functions with their laws; the array and buffer loops that compute them |
| `LockList`, `LockRace` | the heap list of locks; what is left of the protocol when test and insert are two steps |
| `UndoLog`, `Documents`, `UndoStack` | the undo log's text, the in-place exchange sort, UNDO, CHECKPOINT and REVERT as a stack |
| `StorageServer`, `Requests`, `Traces`, `Serializability`, `SerialRun`, `Histories`, `BlankFiles`, `EditingServer` | the protocol as a state machine, what each request does, its theorems, which histories on disk they hold for, and the request handlers over the heap |
| `Acl`, `Metadata`, `MetaStore` | access lists, the table's text form, the table shifted and updated in place |
| `Directory`, `Trie`, `TrieWalks`, `Cache`, `Registry` | the directory as a map and permission history; the heap trie that refines it, its walks, the cache, the slots |
| `NameServer`, `Coherence`, `Mirror`, `Restarts`, `NameRequests`, `RoundRobin`, `Handlers` | the name server and its storage servers as a state machine, what each request does, the theorems over its runs with their exact conditions, and the handlers over the heap |

Code that changes state step by step is modelled by methods over arrays, linked nodes and object
fields. Each such method is proved equal to a function on values, and the theorems are about those
functions. `hide` statements keep definitions out of proofs that do not need them.

## Assumptions

- One request is one step: WRITE tests and inserts its lock at once, and a name server request, or a
  registration with its file sync, runs alone. `LockRace` says exactly what fails without the first of
  these.
- Connection ids are not used twice, because draft files are named by them and survive a disconnect.
  Draft files and backups do not share names with documents.
- The code's capacities: content up to 8191 bytes, 1024 words, 256 sentences, words of content and of
  inserted lines shorter than 511 characters, undo logs up to 1000 records, a trie walk's stack and a
  listing's buffer large enough. Text holds no NUL.
- A checkpoint is kept with its document. The code names its file `<document>_<tag>.checkpoint`, so this
  asks that no document's name is another's followed by an underscore and more
  (`CheckpointsApartExactly` says that this is exactly when documents keep their checkpoints apart).
- A user name on the storage server is any name the handshake takes: 1 to 127 characters without white
  space (src/storage_server/main.c:599-601). Bars in it are allowed. A document's name holds no bar and no
  line break, and the name of its backup, which is up to 25 characters longer, fits its field of 255.
- A number behind a bar in the undo log is read as `strtol` does and then cut to 32 bits.
- In the tables and the directory, names and users fit their fields.
- Each request reads the clock once. File and memory operations succeed.
- An inserted line holds at least one word and no line break.

## What the code does that its documentation does not say

- The repository's README promises that UNDO reverts the last change. A used undo record is written
  back with a line break inside its user field, so on the next reading its flag is gone
  (src/storage_server/main.c:2108-2121, 2181-2195). The flag survives exactly when the user name fills its
  field of 127 characters or has a bar in it. A name that begins with a bar leaves no record at all, and
  one with a number other than zero behind its first bar leaves a record that counts as used already;
  neither write can be undone. `UndosReach` gives the content after any writes by any users and any number
  of UNDOs, and `UndosRestoreExactly` says when as many UNDOs as writes restore the beginning.
- Backups of one file in one second share a file. A write keeps everything that could be undone before it
  exactly when no backup of that second is still pending, or it holds the very content that is saved now
  (`SameSecondExactly`, for clocks that stand still any number of times by `ClockedKeepsLog`).
- An edit that splits its sentence loses words at commit, because the merge takes one sentence from the
  draft (`CommitKeepsVersion` says exactly when it does not, `SplitVersionLosesWords` gives the family).
  The loss is the same whether or not other clients are at work, so the run is serializable either way.
- A file that holds only blanks admits sentence 2 although it has no sentence 1, and concurrent edits of
  it lose an update (`AdmissionExact`, `BlankFileNotSerializable`). A file can turn blank by REVERT or UNDO,
  so all runs on given files, undo logs and checkpoints are serializable exactly when no file is blank, has
  a blank checkpoint, or has a blank backup that UNDO can reach (`SerializableExactly`).
- Two clients hold one sentence exactly after an insert of a lock whose sentence another client came to
  hold since the test (`ExclusionBreaksExactly`, and over runs `ExclusiveExactly`).
- The access lists in memory and on disk stay equal through a step exactly when `Keeps` holds of it
  (`StepMirrorsExactly`, and over runs `RunMirrors`): a created file finds room in its server's table; a
  file is deleted under the name it was created with; a grant or removal reaches the storage server under
  that name, or fails, or changes nothing; a registering server has no file another one has. A grant or
  removal that does not arrive holds until that server restarts and is forgotten by it
  (`LostGrantIsForgotten`), so access that was taken away comes back (`LostRevokeIsForgotten`).
- A storage server that registers again before its old connection was found dead has all its files
  refused as conflicts and then purged (`LateRemovalLosesFiles`). It changes no permission check exactly
  when its slot holds no file (`LateReturnExactly`).
- A file also answers to spellings with characters outside ASCII, which the trie skips. Runs over some
  names are coherent, whatever happens in them, exactly when no two of these names lead to one path
  (`CoherentExactly`); otherwise a lookup can find a server that is gone (`OtherSpellingGoesStale`).

## Model

| member | source | states |
|---|---|---|
| Text.NextToken | src/storage_server/main.c:131-150 | one `strtok` call finds a token exactly when one is left, and token and rest are the tokens that were left |
| Text.TokensOfJoin | src/storage_server/main.c:1000-1119 | joining words by one space and cutting at spaces gives the words back, for every list of words |
| Text.TokensAcrossSeparator | src/storage_server/main.c:131-150 | the words of two texts with a separator between them are the words of the one and then of the other |
| Text.CutAtSeparators | src/storage_server/main.c:131-150 | the editor cuts at blanks, tabs and line breaks, a typed line at blanks and tabs, STREAM at carriage returns too, and each at nothing else |
| Text.CountWords | src/storage_server/persistence.c:22-48 | the one-flag counter counts exactly the words STREAM would send, and the editor's words when there is no carriage return |
| Sentences.ParseSound | src/storage_server/main.c:118-174 | parsing loses no word, and every sentence but the last ends in a delimiter |
| Sentences.CutBehindStops | src/storage_server/main.c:118-174 | a document is cut behind each word that ends in `.`, `!` or `?` and nowhere else |
| Sentences.ParseOfFlat | src/storage_server/main.c:660-704 | a well-formed list of sentences is the only parse of its words |
| Sentences.ParseOfRender | src/storage_server/main.c:660-824 | parse undoes print: the sentences of a printed well-formed list are that list |
| Sentences.CutAt | src/storage_server/main.c:118-174 | each stored boundary spans its sentence's words and delimiter, and the boundaries partition the word indices without gap |
| Sentences.FindBoundaries | src/storage_server/main.c:910-958 | the two-pass parser's loop computes the boundary table of the parse, cut at its capacity |
| Sentences.GetSentenceInfo | src/storage_server/main.c:118-174 | the fused parser computes the same table as the two-pass one, and the word count |
| Editing.InsertWords | src/storage_server/main.c:908-1119 | an inserted line keeps every word outside the sentence, puts the tokens at the index, and adds their number, less one exactly when the delimiter stood alone; it fails exactly when the index is past the end |
| Editing.InsertedWords | src/storage_server/main.c:960-1104 | from the old words alone: the stop is taken off the last word, or with it if it stands alone; the typed words come behind the first i - 1 of what is left; and that very stop goes to the word that is last now |
| Editing.InsertIsLocal | src/storage_server/main.c:858-1119 | whatever the sentence becomes, a line changes the sentences of the version and none before or after |
| Editing.AppendIsLocal | src/storage_server/main.c:858-1119 | a line for the sentence after the last appends that sentence only |
| Editing.TypedFollows | src/storage_server/main.c:858-1140 | after any lines the draft is the document it began from with the locked sentence replaced by a version that depends on that sentence and the lines alone |
| Editing.MergeIsLocal | src/storage_server/main.c:751-824 | a commit replaces sentence n of the live document by one sentence of the draft, or appends it, and touches no other sentence |
| Editing.CommitAsAlone | src/storage_server/main.c:626-856 | merging a draft begun from an older document gives what the same session would give started now, as long as sentence n is what it was |
| Editing.SessionFrame | src/storage_server/main.c:626-856 | a session on sentence n leaves every other sentence, and the right to edit it, as it was |
| Editing.CommitKeepsVersion | src/storage_server/main.c:751-824 | a commit keeps all words of the version if and only if the version is one sentence or the document was empty |
| Editing.SplitVersionLosesWords | src/storage_server/main.c:795-808 | the failing family: for any four plain words, splitting a sentence drops the words behind the split |
| Editing.CommitsCommute | src/storage_server/main.c:626-856 | two drafts of one document on different sentences merge to the same text in either order |
| Editor.AdmissionExact | src/storage_server/main.c:1385-1467 | WRITE admits n exactly when sentence n exists, or is next after a finished last one, if and only if the file is not blank |
| Editor.AvailableSentences | src/storage_server/main.c:1385-1443 | the completeness test that cuts the text again computes the number of admitted sentences |
| Editor.DetachDelimiter | src/storage_server/main.c:1020-1047 | the loop that copies the sentence yields its words with a final `.`, `!` or `?` taken off, and that character |
| Editor.InsertTokens | src/storage_server/main.c:1000-1060 | the array loops put the tokens between the words before the index and the rest |
| Editor.JoinWords | src/storage_server/main.c:1060-1119 | the buffer loop prints the words with single spaces |
| Editor.InsertLine | src/storage_server/main.c:858-1140 | the whole loop over words computes the insertion function, its failures included; with words shorter than 511 the delimiter always finds room |
| Editor.MergeSentence | src/storage_server/main.c:626-856 | the whole commit loop computes the merge function |
| Editor.ReplaceSentence | src/storage_server/main.c:776-824 | the loop over live sentences prints sentence n from the draft and the others from the live file |
| LockList.List.IsSentenceLocked | src/storage_server/main.c:1942-1956 | the walk answers whether another client holds the sentence |
| LockList.List.IsFileLocked | src/storage_server/main.c:1484-1500 | the walk answers whether anybody holds a sentence of the file |
| LockList.List.WriteInfo | src/storage_server/main.c:2016-2030 | the walk finds the client's newest lock, or none |
| LockList.List.Add | src/storage_server/main.c:1958-1972 | a new node in front; the list stays linked, acyclic and without a repetition |
| LockList.List.Remove | src/storage_server/main.c:1974-1993 | unlinks exactly the first node that matches, and no other |
| LockList.List.RemoveClient | src/storage_server/main.c:1995-2014 | one walk unlinks exactly the client's nodes |
| LockList.WithoutClientMembers | src/storage_server/main.c:1995-2014 | after a disconnect the locks are exactly those of other clients |
| LockRace.AtMostOneLockEach | src/storage_server/main.c:622-626 | with test and insert as separate steps, in every interleaving a client holds at most one lock |
| LockRace.ExclusionBreaksExactly | src/storage_server/main.c:1468-1479 | with test and insert as separate steps, a step makes two clients hold one sentence if and only if it inserts a tested sentence that another client has come to hold |
| LockRace.ExclusiveExactly | src/storage_server/main.c:1468-1479 | an interleaving is exclusive throughout if and only if it has no such insert |
| LockRace.BothHold | src/storage_server/main.c:1468-1479 | such interleavings exist from every state: two clients that test a free sentence before either inserts both hold it |
| Decimal.AtolOfShow | src/storage_server/persistence.c:50-147 | reading a printed number gives the number, for all integers |
| Decimal.ShowLength | src/storage_server/persistence.c:149-196 | a printed 64-bit number has at most 20 characters |
| UndoLog.LoadOfSave | src/storage_server/main.c:2108-2195 | reading a rewritten log gives the same records, and the used flag of a record exactly when its stored name lets it survive; names may hold bars |
| UndoLog.LoadOfAppend | src/storage_server/main.c:2032-2079 | appending a line to a log adds that line's record to what is read |
| Documents.ExchangeSort | src/storage_server/main.c:2129-2138 | the two nested loops compute the sorting function in place |
| Documents.SortNewestSorts | src/storage_server/main.c:2129-2138 | the sort is a permutation, newest first, and keeps distinct times distinct |
| Documents.OneOrder | src/storage_server/main.c:2129-2138 | records with distinct times have one sorted order |
| Documents.BackupLog | src/storage_server/main.c:2032-2121 | for every name the handshake takes, an appended backup line adds one record, with the name as far as the reader keeps it and the flag found behind its bar, or none when the name begins with a bar |
| Documents.NewRecordOk | src/storage_server/main.c:2108-2195 | that record keeps a used flag through a rewrite if and only if the name fills its field or has a bar in it |
| Documents.RewritePushes | src/storage_server/main.c:2032-2079 | a write or revert at a later time pushes the old content on the undo stack, if its user's name gives an unused record, with the flag marked kept or lost, and keeps the log well formed |
| Documents.UndoPopsOrPeeks | src/storage_server/main.c:2081-2215 | UNDO restores the top of the stack, and takes it off exactly when the record keeps its flag; it fails exactly on an empty stack; equal times and any user names included |
| Documents.SameSecondExactly | src/storage_server/main.c:2032-2079 | a write leaves every content that could be undone as it was, and adds its own, if and only if no backup of that second is pending or it holds the content saved now |
| UndoStack.PlayFollowsStack | src/storage_server/main.c:2032-2215 | any mix of writes and reverts by any users and of undos, under increasing times, follows the stack |
| UndoStack.UndosReach | src/storage_server/main.c:2081-2215 | any writes by any users and k undos end at the entry under the first lost flag, or at the k-th if none above it is lost, or at the last |
| UndoStack.UndosRestoreExactly | src/storage_server/main.c:2081-2215 | k writes by users whose names give unused records and k undos restore the content if and only if every flag is kept or the last write that loses its flag replaced that content; they end at what that write replaced |
| UndoStack.KeptFlagsUnwind | src/storage_server/main.c:2140-2195 | where flags are kept, k undos take back k writes and restore the stack |
| UndoStack.LostFlagsRepeat | src/storage_server/main.c:2140-2195 | where the flag is lost, every further undo restores the same backup |
| UndoStack.ClockedKeepsLog | src/storage_server/main.c:2032-2215 | any mix of writes and undos under a clock that never runs back leaves a log of the kind `SameSecondExactly` and `UndoPopsOrPeeks` speak of |
| UndoStack.SameSecondLosesBackup | src/storage_server/main.c:2032-2079 | of two writes at one time the second adds its old content to all that could be undone if and only if the first changed nothing or pushed nothing; otherwise the first old content is gone |
| Documents.SharedCheckpoint | src/storage_server/main.c:2219-2353 | two checkpoints share a file exactly if document and tag are the same, or one document's name goes on with an underscore and what the other's tag begins with |
| Documents.CheckpointsApartExactly | src/storage_server/main.c:2219-2353 | the documents of a server keep all their checkpoints apart if and only if no name goes on from another with an underscore |
| UndoStack.RevertThenUndo | src/storage_server/main.c:2219-2353 | among documents that keep their checkpoints apart: a checkpoint is taken once and never changed, a revert restores it, and one undo takes the revert back if and only if its record is pushed or the stack had that content on top |
| UndoStack.ReadLog | src/storage_server/main.c:2108-2121 | the reading loop computes the parse of the log |
| UndoStack.WriteLog | src/storage_server/main.c:2181-2195 | the writing loop computes the printed log |
| UndoStack.PerformUndo | src/storage_server/main.c:2081-2215 | the whole of UNDO over the sorted array computes the undo function |
| Requests.CommandsServed | src/storage_server/main.c:1484-1684 | UNDO, CHECKPOINT and REVERT are carried out exactly when the client edits nothing and nobody edits that file, whatever else is being edited |
| Requests.WriteServed | src/storage_server/main.c:1366-1481 | WRITE adds its lock exactly when the client edits nothing, nobody holds that sentence, and it exists, or is next after a finished last one, or is 2 in a blank file |
| Requests.LineServed | src/storage_server/main.c:858-1140 | a line changes the client's own draft, which starts from the live file, and nothing else; a line that fails changes nothing |
| Requests.CommitServed | src/storage_server/main.c:626-856 | a commit frees that lock only, and with a draft backs up, merges and logs that file only |
| Requests.NotWriting | src/storage_server/main.c:622-626 | a client without a lock changes nothing by lines and commits |
| Requests.ConnectionServed | src/storage_server/main.c:1932-1938 | a disconnect frees the client's locks and no others, and leaves files and drafts alone |
| Traces.StepKeeps | src/storage_server/main.c:626-1684 | every step keeps the invariant: each open draft holds what its lines make of its sentence as it stands now |
| Serializability.RunKeeps | src/storage_server/main.c:626-1684 | the invariant holds in every state of a run in which no file is ever blank |
| Serializability.Serializable | src/storage_server/main.c:626-1500 | for every run of any number of clients in which no file is ever blank, the documents are those of the committed sessions and commands done one after another in commit order |
| Serializability.LockedSentenceStable | src/storage_server/main.c:1468-1479 | in every state of a run in which no file is ever blank, no step but the holder's commit changes a locked sentence or the right to write it |
| Serializability.LocksExclusive | src/storage_server/main.c:1942-1972 | in every run no two clients hold one sentence and no client holds two locks |
| SerialRun.SerialRunExists | src/storage_server/main.c:626-1500 | for every run in which no file is ever blank there is a run of the same server in which each session connects, writes, commits and leaves before the next begins, with the same documents |
| SerialRun.SessionRunsAlone | src/storage_server/main.c:626-1481 | one session run alone does to the documents what the serial description says |
| BlankFiles.BlankFileLosesUpdate | src/storage_server/main.c:751-824 | on every blank file, two sessions with any plain words lose one session's words |
| Histories.SoundNeverBlank | src/storage_server/main.c:626-1684 | no run turns a file blank when no content, backup or checkpoint is |
| Histories.GuardedNeverBlank | src/storage_server/main.c:2081-2215 | nor when every blank backup lies under a backup that UNDO never gets past |
| BlankFiles.BlankFileNotSerializable | src/storage_server/main.c:1385-1467 | from any state with nobody connected and a blank file there is a continuation that no serial execution explains |
| BlankFiles.SerializableExactly | src/storage_server/main.c:626-1684 | on any files with well-formed undo logs and any checkpoints, all runs are serializable if and only if no file is blank, has a blank checkpoint, or has a blank backup with no lost flag above it |
| EditingServer.Server.Write | src/storage_server/main.c:1366-1481 | the handler over the heap lock list is the protocol's WRITE step, and reports whether it admitted |
| EditingServer.Server.Type | src/storage_server/main.c:858-1140 | a line in write mode is the protocol's step |
| EditingServer.Server.Etirw | src/storage_server/main.c:626-856 | backup, merge, drop of the draft and release are the protocol's commit step |
| EditingServer.Server.UndoFile | src/storage_server/main.c:1484-1535 | UNDO behind the lock test is the protocol's step |
| EditingServer.Server.CheckpointFile | src/storage_server/main.c:1538-1588 | CHECKPOINT behind the lock test is the protocol's step |
| EditingServer.Server.RevertFile | src/storage_server/main.c:1634-1684 | REVERT behind the lock test is the protocol's step |
| EditingServer.Server.Disconnect | src/storage_server/main.c:1932-1938 | a disconnect drops the client's locks and keeps its draft files |
| Acl.GrantedIsUpdate | src/name_server/search.c:716-759 | a grant sets one user's permission and nobody else's, keeps the list without duplicates and within 10, and fails exactly on a full list without the user |
| Acl.RevokedIsRemoval | src/name_server/search.c:764-798 | swap-with-last removal takes one user off and nobody else |
| Acl.Grant | src/storage_server/persistence.c:300-321 | the array loop computes the grant |
| Acl.Revoke | src/storage_server/persistence.c:326-344 | the array loop computes the removal |
| Metadata.LoadOfSave | src/storage_server/persistence.c:50-196 | a table of separator-free rows comes back from its text |
| Metadata.RowFitsLine | src/storage_server/persistence.c:149-196 | every printed line is shorter than the reader's 2048-byte buffer, whatever the row holds |
| Metadata.LoadedRowsSeparable | src/storage_server/persistence.c:50-147 | whatever the text, rows read from it hold no separator |
| Metadata.RoundTripExactly | src/storage_server/persistence.c:50-196 | a table comes back from its text if and only if no field holds a separator, no name is empty, and no user or folder is a literal dash |
| MetaStore.AddRowSets | src/storage_server/persistence.c:198-219 | adding sets the one missing row, if there is room, and no other |
| MetaStore.RemoveRowDrops | src/storage_server/persistence.c:221-231 | removal by shifting drops one row and keeps the others |
| MetaStore.PutRowSets | src/storage_server/persistence.c:233-245 | a change in place changes one row |
| MetaStore.ChangesExactly | src/storage_server/persistence.c:233-344 | what each change leaves of its row, field by field, and that all other rows stay |
| MetaStore.CreatesExactly | src/storage_server/persistence.c:198-219 | the fields of a new file's row |
| MetaStore.Store.WriteDisk | src/storage_server/persistence.c:149-196 | the writing loop leaves the printed table on disk |
| MetaStore.Store.ReadDisk | src/storage_server/persistence.c:50-147 | the reading loop fills the table with the parse of the file |
| MetaStore.Store.Restart | src/storage_server/persistence.c:50-147 | a restart brings back the table as it was |
| MetaStore.Store.AddEntry | src/storage_server/persistence.c:198-219 | table and disk after adding an entry |
| MetaStore.Store.RemoveEntry | src/storage_server/persistence.c:221-231 | table and disk after the shift loop |
| MetaStore.Store.PersistOwner | src/storage_server/persistence.c:278-284 | table and disk after setting an owner |
| MetaStore.Store.PersistAcl | src/storage_server/persistence.c:300-321 | table and disk after a grant, which a full list ignores |
| MetaStore.Store.PersistRemoveAcl | src/storage_server/persistence.c:326-344 | table and disk after a removal |
| MetaStore.Store.UpdateEntry | src/storage_server/persistence.c:233-245 | table and disk after a write |
| MetaStore.Store.PersistAccess | src/storage_server/persistence.c:250-259 | table and disk after an access |
| Directory.PermissionHistory | src/name_server/search.c:683-798 | after any operations a check succeeds exactly when the file exists and the user owns it or the history last gave at least that permission: by a grant of the owner's with room on the list, or a registration, with no removal of the owner's, deletion, purge or re-creation since |
| Directory.StepOfAcl | src/name_server/search.c:606-998 | one operation changes one user's permission on one file, or drops or replaces files |
| Directory.GrantsExactly | src/name_server/search.c:716-759 | a grant takes effect exactly if the owner sends it and the list has the user or room, and then sets that user's permission and nothing else |
| Directory.RevokesExactly | src/name_server/search.c:764-798 | a removal takes effect exactly if the owner sends it, and then takes that user off and nobody else |
| Directory.DeletesExactly | src/name_server/search.c:806-846 | a deletion drops a path exactly if its owner sends it under that path, and the reply tells missing, refused and done apart |
| Directory.OnlyOwnerChanges | src/name_server/search.c:716-846 | whatever changes anybody's permission or drops a file among grants, removals and deletions was sent by that file's owner |
| Directory.AddsExactly | src/name_server/search.c:606-645 | a new file belongs to its creator, who alone passes its checks; a file that is there stays as it is |
| Directory.PurgesExactly | src/name_server/search.c:871-917 | a purge drops the records of one slot and no others |
| Directory.RebuildsExactly | src/name_server/search.c:921-998 | a registering server's file is taken over field by field if it is new or in the same slot, and otherwise nothing changes |
| Trie.FileTrie.FindNode | src/name_server/search.c:577-591 | the walk finds the node of the name's path exactly when the path exists |
| Trie.FileTrie.MakeNode | src/name_server/search.c:606-619 | missing nodes are made, the nodes stay a tree, and the directory does not change |
| Trie.FileTrie.Add | src/name_server/search.c:606-645 | adds exactly one new key, and leaves an existing one alone |
| Trie.FileTrie.Delete | src/name_server/search.c:806-846 | removes exactly one key, by its owner, or says why not; its walk does not skip characters |
| Trie.FileTrie.RebuildFile | src/name_server/search.c:921-998 | refreshes the same server's record, adds a missing one, refuses a conflict |
| Trie.FileTrie.CheckPermission | src/name_server/search.c:683-711 | the check on the heap is the check on the map |
| Trie.FileTrie.Grant | src/name_server/search.c:716-759 | the change in place of one record is the grant on the map |
| Trie.FileTrie.Revoke | src/name_server/search.c:764-798 | the change in place of one record is the removal on the map |
| TrieWalks.PurgeNode | src/name_server/search.c:871-898 | the recursion removes exactly the dead server's records below a node, and their cached names |
| TrieWalks.PurgeServer | src/name_server/search.c:904-917 | a purge removes exactly the dead server's keys and cached names |
| TrieWalks.FrontierStep | src/name_server/search.c:251-290 | popping a node and pushing its children keeps every path either seen or below exactly one path on the stack |
| TrieWalks.ListedByCheck | src/name_server/search.c:251-290 | the listing's filter is the permission check for READ |
| TrieWalks.ListFiles | src/name_server/search.c:251-290 | the explicit-stack walk ends and lists exactly once each record of the folder that the user passes the READ check of, or every one |
| TrieWalks.CollectFiles | src/name_server/search.c:42-52 | the recursive walk collects records of the trie, each once: all of them if they fit the caller's array, and otherwise exactly as many as fit |
| TrieWalks.ListedIsCollected | src/name_server/search.c:251-290 | what is listed is exactly what the recursive walk reaches and the READ check passes, each record as often |
| TrieWalks.ViewLong | src/name_server/search.c:153-290 | the long VIEW, which walks the trie both ways: it lists, each as often, what it collected and lets pass, and nothing else if there was room for all |
| Cache.FileCache.Lookup | src/name_server/cache.c:17-39 | the scan answers the cached server and refreshes that slot's time only |
| Cache.FileCache.Add | src/name_server/cache.c:44-81 | the scan overwrites the first free slot, else the first of the oldest ones, else slot 0 when all times tie with now |
| Cache.FileCache.Invalidate | src/name_server/cache.c:86-96 | the scan clears the first slot of the name |
| Cache.TimesAreLastUses | src/name_server/cache.c:17-81 | over all histories with a forward clock a slot's time is the last use of its name |
| Cache.EvictsLeastRecentlyUsed | src/name_server/cache.c:44-81 | after every history a full cache gives up a name used no later than any other |
| Cache.FreeSlotFirst | src/name_server/cache.c:54-65 | while a slot is free no cached name is lost |
| Registry.RoundRobinFair | src/name_server/storage_manager.c:174-201 | whatever the pointer, k choices among k unchanged active slots take each once, for any registry size |
| Registry.SlotTable.Register | src/name_server/storage_manager.c:44-68 | takes the first inactive slot, or fails when there is none |
| Registry.SlotTable.NextForNewFile | src/name_server/storage_manager.c:174-201 | the modular loop finds the next active slot from the pointer and moves the pointer behind it |
| Registry.SlotTable.Remove | src/name_server/storage_manager.c:225-246 | deactivates the one slot with the socket |
| NameServer.SlotReuseIsSafe | src/name_server/storage_manager.c:44-68 | in every reachable state each record points to an active slot and came from the very server now in it |
| NameServer.StepKeepsSlots | src/name_server/client_handler.c:80-210 | every step keeps slots and records in step, lost connections included |
| Coherence.StepAgrees | src/name_server/search.c:650-678 | over any names no two of which lead to one path, every step keeps the cache in step with the directory and records under their own names |
| Coherence.CacheCoherent | src/name_server/search.c:650-678 | after every run over such names no name is cached twice and a lookup finds what the directory alone would |
| Coherence.CoherentExactly | src/name_server/search.c:577-678 | all runs over some names are coherent for all of them if and only if no two of them lead to one path |
| Coherence.OtherSpellingGoesStale | src/name_server/search.c:871-898 | the failing family: a file found under any spelling but its record's name stays cached under it when its server is removed |
| Coherence.AsciiOneSpelling | src/name_server/search.c:577-591 | ASCII names are such names: each is its own path |
| Coherence.RunSane | src/name_server/cache.c:44-81 | after every run, whatever its names, no name is cached twice and records and cached names point to slots |
| Mirror.ReloadedIsTable | src/storage_server/persistence.c:50-196 | the tables of a run come back unchanged from their text |
| Mirror.RebuiltMirrors | src/storage_server/main.c:526-558 | a registration without conflicts adds exactly the table's rows, with equal owners and lists |
| Mirror.RegisteredRecords | src/name_server/search.c:965-990 | after a registration without conflicts each record is its row, field by field: size, words, times, last user, owner and list |
| Mirror.CreateMirrors | src/name_server/client_handler.c:80-154 | after a creation, under any name, all records equal the rows of their names if and only if the connection was lost or the table had room |
| Mirror.DeleteMirrors | src/name_server/client_handler.c:156-210 | after a deletion they do if and only if it failed, the connection was lost, or the file was deleted under the name it was created with |
| Mirror.RegisterMirrors | src/name_server/storage_manager.c:75-169 | after a registration they do if and only if no slot was free or no file conflicts |
| Mirror.SentMirrors | src/name_server/client_handler.c:359-465 | after a change of a list they do if it is carried to the storage server under the record's own name, and otherwise if and only if the list was that already |
| Mirror.StepMirrorsExactly | src/name_server/client_handler.c:80-465 | for every step, under any names, registrations, removals and restarts included: exactly when it keeps owners and lists in memory and on disk equal |
| Restarts.SpellingKeeps | src/name_server/client_handler.c:156-465 | over names no two of which lead to one path, deletions and every grant or removal that arrives keep the mirror |
| Restarts.StepMirrors | src/name_server/client_handler.c:80-465 | every step over such names, with users and numbers a table can keep, keeps what the mirror rests on, and the mirror exactly as stated |
| Restarts.RunMirrors | src/name_server/client_handler.c:80-465 | in every run over such names the mirror holds in all states if and only if every step keeps it, whatever connections are lost |
| Restarts.CheckByTables | src/name_server/search.c:683-711 | a permission check answers what the registered storage servers' own rows for that path say |
| Restarts.ReturnHasNoConflict | src/name_server/search.c:937-963 | the files of a storage server that comes back conflict with none |
| Restarts.RestartsChangeNoDecision | src/name_server/search.c:921-998 | over such names, ASCII or not: after any restarts, removals and returns that end with the same storage servers registered, in whatever slots, every check on every file answers as before |
| Restarts.NotesComeBack | src/storage_server/main.c:526-558 | the size, words, time or user a storage server noted last about a file is what the directory shows once it registers |
| Restarts.ServerRestart | src/name_server/storage_manager.c:225-246 | one storage server removed and registered again changes no check |
| Restarts.LateRemovalLosesFiles | src/name_server/search.c:937-963 | a storage server that registers before its old slot was freed loses all its files at the removal |
| Restarts.LateReturnExactly | src/name_server/search.c:937-963 | such a late return changes no check if and only if the old slot holds no file |
| Restarts.LostGrantIsForgotten | src/name_server/client_handler.c:359-410 | a grant that did not reach the storage server holds, and after that server's restart every check is as before the grant |
| Restarts.LostRevokeIsForgotten | src/name_server/client_handler.c:412-465 | a removal that did not reach it holds too, and after that server's restart the user has access again as before |
| NameRequests.GrantServed | src/name_server/client_handler.c:359-410 | on the running name server an owner's grant with room gives that user that permission and nobody else anything; any other changes nothing |
| NameRequests.RevokeServed | src/name_server/client_handler.c:412-465 | an owner's removal leaves that user without access and nobody else; any other changes nothing |
| NameRequests.DeleteServed | src/name_server/client_handler.c:156-210 | an owner's deletion drops that file, and with a lost connection those of its slot; any other changes nothing |
| NameRequests.CreationServed | src/name_server/client_handler.c:80-154 | a new file is recorded in an active slot with its creator as owner, and as a row of that owner's on the storage server; nothing else changes |
| NameRequests.CreationRefused | src/name_server/client_handler.c:80-154 | a creation of a file that is there, or without storage servers, records nothing |
| NameRequests.RegistrationServed | src/name_server/storage_manager.c:44-68 | a registering storage server takes the first free slot with its socket and address, or nothing is recorded |
| NameRequests.RestartServed | src/name_server/search.c:577-591 | a restarted name server knows no file and no storage server |
| NameRequests.ListsStayValid | src/name_server/search.c:716-798 | over every run access lists keep to ten entries and one a user, in memory and on disk |
| RoundRobin.EachServerOnce | src/name_server/storage_manager.c:174-201 | after any run, as many acknowledged creations of new files as there are storage servers put one file on each |
| RoundRobin.ServersInTurn | src/name_server/storage_manager.c:174-201 | of two new files in a row the second goes to the first active slot behind that of the first, going round |
| Handlers.Server.Find | src/name_server/search.c:650-678 | cache, then trie, then cache fill is the lookup of the state machine |
| Handlers.Server.RemoveServer | src/name_server/storage_manager.c:225-246 | freeing the slot and then purging is the removal of the state machine |
| Handlers.Server.Create | src/name_server/client_handler.c:80-154 | the handler's order of changes is the creation step, whatever the name, a lost connection included |
| Handlers.Server.Delete | src/name_server/client_handler.c:156-210 | record, cache, then storage server is the deletion step, whatever the name |
| Handlers.Server.AddAccess | src/name_server/client_handler.c:359-410 | the handler is the grant step |
| Handlers.Server.RemoveAccess | src/name_server/client_handler.c:412-465 | the handler is the removal step |
| Handlers.Server.Register | src/name_server/storage_manager.c:75-169 | the storage server's table object reads its text file, a slot is taken, and the files go one message at a time: together the registration step |

## Left out

- Sockets, threads, logging, `src/client/main.c`, `executor.c`: each message exchange is part of its request's step.
- Interleavings inside one request, but for the two critical sections of WRITE's lock, which `LockRace` models.
- The name server's forwarded UNDO, which does not test locks, and direct CREATE and DELETE: they are not among the steps of the serializability theorem.
- VIEW and LIST text, time formatting and STREAM's pauses: only which records are listed is modelled.
- Folder commands: the storage server has no case for the message that sets a folder, and registration does not send it.
- Access requests: an approval changes the storage server's list alone, so approvals are no step of the mirror runs.
- `user_manager.c`: a list with swap-with-last removal, which `Acl` covers.
- The refresh of sizes and times before a long listing: it changes neither owners, servers nor access lists.
- Behaviour past the capacities: buffer overruns, a trie walk's stack of 4096 nodes, a full undo log; failed allocation and file operations.
- Names and users that fill their fields without a NUL.
- UndoStack.UndosRestoreExactly: speaks of users whose names give unused records, because other writes push nothing that could be undone; `UndosReach` covers every name.
- Restarts.RunMirrors: asks that names, users and numbers are such as a table can keep in its text, and that a server registers on a fresh socket after its old slot was freed; `LateReturnExactly` says what happens otherwise.
