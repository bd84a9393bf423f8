# CrossWords game core: verified model

This project models the parts of a Scrabble-like game's core (`xwords4/common/`) in which most of its state
and most of its promises lie, and proves those promises for every input, every run and every reachable state.

* **The word graph** (`Dawg`): an array of edges in which siblings lie in runs closed by a last-edge bit.
  `WellFormed` is what `checkSanity` tests, plus distinct tiles within a run and no blank on an edge.
* **The move generator** (`RowSearch`, `RowExact`, `RowOnce`, `RackDraw`, `BoardRows`, `Engine`, `BoardRules`, `Blanks`): `RowSearch`
  gives the recursion of `leftPart` and `extendRight` as functions of a rack *value*.  `Engine.EngineCtxt` is the mutable
  engine, whose rack is taken from and put back in place; each method is proved to make exactly the calls those functions
  list and to restore the rack.  The lists are then proved to hold every legal placement and no other, each once,
  where "legal" (`BoardRules.BoardAllows`) is said of rows and columns of the board without mention of the search.
* **The cache of best moves** (`MoveOrder`, `MoveCache`): the bounded store keeps the best ten, and stepping through
  its refills answers all candidates in descending order, and then starts over.
* **The two together** (`EngineMoves`): the calls of the search, in every marking of their blanks and under an arbitrary
  score, are the candidates of the cache, so that `engine_findMove`, called again and again, answers exactly the
  legal moves that score, best first.
* **Reliable messaging** (`CommsState`, `CommsQueue`, `CommsKeep`, `CommsAcks`, `CommsProtocol`, `CommsSafety`, `CommsRuns`,
  `CommsCrash`, `CommsObjects`): each operation on a device's queues as a function of state and as a method on mutable
  records, and a step system of a host and any number of guests in which packets are lost, repeated, delayed and
  reordered, saves finish late or never, and devices restart from their last save.
* **The dictionary iterator** (`PatFilter`, `PatExact`, `DictPaths`, `DictWords`, `DictIndex`, `DictIters`, `DictNth`): the list of
  words an iterator stands for is defined by recursion over the graph; the explicit stack, walked forwards and
  backwards, with bit sets for patterns and a prefix index, is proved to walk that list.
* **Streams and the move stack** (`BitStream`, `JenkinsHash`, `MemStreams`, `ByteFields`, `StackCodec`, `MoveStacks`, `StackCopies`,
  `StackHashes`, `Framing`): a buffer
  written and read at any bit position, the packed entries of the undo stack with its cached read position, and
  the packet formats.
* **The linked list** (`DLists`): nodes rewired in place by insertion, removal, mapping and sorting.
* **The message digest** (`Md5`, `Md5Known`): RFC 1321 is written down in its own terms (registers worked on in turn, tables of shifts and
  of word order) and the source's loop, padding and wrap-around of sizes are proved to compute it.
* **Text and tiles** (`TileText`): all spellings of a string by tiles with several faces, and back.
* **The board's pixels** (`BoardGeometry`) and **the byte queue** (`BufQueues`).

A method that changes state is tied by its `ensures` to a function of the old state; what the source promises is
proved about that function.  Arguments marked `ghost` and fields used only in contracts are specification.

## What does not hold as one might expect

Each of these is a lemma with a concrete case or an exact condition.

* `Dawg.CheckSanityGap`: `checkSanity` also passes an array whose final run is not closed, exactly when its final edge
  carries tile 0 and closing that run would make the array sane.
* `CommsCrash.CrashExact`: a restart is harmless if and only if the device's sends are in its last save.  Otherwise some
  channel takes a new message under a number already given, and the message that had it is held by nobody any more
  although the peer may still lack it.  `CommsCrash.UnsavedSendIsLost` is a whole run that ends with a message lost for
  good, both queues empty and both counters agreed.  The main theorems are about runs whose restarts are careful.
* `PatFilter.FilterSound`: an element whose maximum is zero lets one tile through, as if the maximum were one, unless the word
  ends with it, and no
  pattern lets through more than that; `PatFilter.ZeroMaxSlips` is such a word.
* `PatExact.FilterExact`: the filter takes a matching word whenever no tile can be mistaken for the start of a later
  element (`NoRestart`, a condition on the pattern).  Otherwise it may turn down a word that fits, because a streak
  cannot be cut short and begun again: `PatFilter.MatchMissed`, and `PatExact.PairLoses` for every pattern in
  which an element of varying length is followed by one that fits its tiles.  `PatExact.LastExact` gives the exact condition
  for patterns in which only the last two elements may vary.
* `DictIters.DictIter.FirstWord`: `firstWord` tests the first edge against the old stack.  It answers no word exactly when
  no edge passes there, and reaches the first word when what passes there is what passes on an empty stack;
  `DictNth.StartingOverFails` is a dictionary of one word that is found once and not a second time.
* `MoveCache.MoveIterationData.EngineFindMove`: when nothing is left the search starts over, so after the last move the
  highest is answered again.
* `EngineMoves.KeptOnce`: a single tile that makes two words is dropped by one of the two passes, but one that is itself
  a word of the dictionary may still be found by both.
* `MemStreams.MemStream.PutBytes`: whole bytes put before the end of a stream cut it off there; only bits overwrite.
* `StackCopies.CopyStack`: `stack_copy` writes on a stream without a version, so the version of the stack's own stream is not
  written and a stack with data is read back in the layout for seven tiles.  That is its own layout if and only if its version
  is that of the older one; a stack of the current version with a tile-carrying entry below its cursor, and no pause, is always
  misread.  `StackCopies.CopyMisreads`: a stack that assigns tile `t` is copied as one that assigns `2 * t % 64`.
  `StackCopies.CopyMoves`: the model's own `copyStack` gives the stream the stack's version and loses nothing.  A stack with no
  data yet is copied as it is, but for its flag for seven tiles.
* `Framing.DispatchMsgs`: the count of packets is one byte and an empty packet is not handed on.

## Model

| member | source | states |
|---|---|---|
| `Dawg.EdgeWithTileExact` | xwords4/common/dictnry.c:1178-1196 | The scan of a run finds edge `j` if and only if `j` is a sibling in that run and carries the tile; distinct tiles make it the only one. |
| `Dawg.FindEdgeWithTile` | xwords4/common/dictnry.c:1178-1196 | The loop over siblings returns what the recursive definition gives, never leaving the run. |
| `Dawg.AcceptsSplit` | xwords4/common/dictnry.c:1169-1176 | A word is accepted from a node if and only if following a first part leads to a node from which the rest is accepted. |
| `Dawg.AcceptsExact` | xwords4/common/engine.c:636-657 | A word is accepted if and only if there are edges that carry its tiles, each in the run the one before links to, the last of them ending a word. |
| `Dawg.Lookup` | xwords4/common/engine.c:636-657 | The walk over the buffer says yes exactly for the slices that spell an accepted word. |
| `Dawg.CheckSanity` | xwords4/common/dictnry.c:1238-1278 | Passes exactly when tiles ascend in every run, tiles and links are in range, and the array is closed after the tile-0 exception. |
| `Dawg.CheckSanityGap` | xwords4/common/dictnry.c:1238-1278 | What that exception lets through, as an if-and-only-if. |
| `RowExact.ExtendExact` | xwords4/common/engine.c:963-1042 | A play list extending what is laid is yielded by extendRight if and only if the tiles and the squares between them spell an accepted word, every new tile passes its cross-check, the rack supplies them with exactly those blanks, and the word stops at a gap or the edge. |
| `RowExact.LeftExact` | xwords4/common/engine.c:929-961 | leftPart yields a candidate if and only if its left tiles can be drawn and spelled and the rest is yielded by extendRight from the node and rack so reached, for any left length up to the limit. |
| `RowExact.AnchorExact` | xwords4/common/engine.c:857-895 | One anchor yields exactly the legal placements whose first covered anchor it is, whether the square to its left is empty or filled. |
| `RowExact.RowMovesExact` | xwords4/common/engine.c:590-634 | A row yields exactly the legal placements that cover an anchor. |
| `RowOnce.RowMovesOnce` | xwords4/common/engine.c:590-634 | No two entries of a row are the same placement, even across anchors and with different blanks. |
| `RackDraw.DrawExact` | xwords4/common/engine.c:1044-1070 | Taking tiles one by one with blanks as fallback succeeds if and only if there are enough tiles and the shortfall, counted as a multiset, is at most the number of blanks; the blanks used stand for exactly that shortfall. |
| `BoardRows.AnchorsAreOk` | xwords4/common/engine.c:809-837 | The anchors of a row are empty squares beside every filled one, and on the first move lie as the row search needs. |
| `BoardRows.AnchorsAgree` | xwords4/common/engine.c:809-837 | Some new tile lies on an anchor square of the board if and only if the placement covers a marked column of the row. |
| `BoardRows.CrossChecksAgree` | xwords4/common/engine.c:659-771 | Every new tile is in its column's cross-check set if and only if every word it forms across is accepted. |
| `BoardRows.RulesAreLegal` | xwords4/common/engine.c:590-634 | The rules said on the board agree with legality said on one row. |
| `BoardRows.RowSearchExact` | xwords4/common/engine.c:590-634 | For any board, direction, row and rack, the row search yields a placement if and only if the rules allow it. |
| `Engine.EngineCtxt.InitTray` | xwords4/common/engine.c:248-266 | The rack counts each tile as often as the tray holds it. |
| `Engine.EngineCtxt.RackRemove` | xwords4/common/engine.c:1044-1070 | Takes the tile, or else a blank, recording what the blank stands for; fails without a change when neither is left. |
| `Engine.EngineCtxt.RackReplace` | xwords4/common/engine.c:1072-1082 | Undoes the matching removal: the rack is what it was before. |
| `Engine.EngineCtxt.ConsiderMove` | xwords4/common/engine.c:1084-1117 | The columns rebuilt from the row and the first column are those at which the tiles were laid. |
| `Engine.EngineCtxt.ExtendRight` | xwords4/common/engine.c:963-1042 | Makes the calls RowSearch.ExtendRight lists, in order, and gives back rack, tile count, blank count and the tiles laid before. |
| `Engine.EngineCtxt.ExtendEdges` | xwords4/common/engine.c:981-1022 | The same for one run of siblings, with the one-way switch to the second 32 cross-check bits. |
| `Engine.EngineCtxt.TryEdge` | xwords4/common/engine.c:985-1015 | The same for one sibling. |
| `Engine.EngineCtxt.LeftPart` | xwords4/common/engine.c:929-961 | Makes the calls RowSearch.LeftPart lists, in order, and restores the rack. |
| `Engine.EngineCtxt.LeftEdges` | xwords4/common/engine.c:939-957 | The same for one run of siblings. |
| `Engine.EngineCtxt.TryLeftEdge` | xwords4/common/engine.c:943-951 | The same for one sibling. |
| `Engine.EngineCtxt.GatherLeft` | xwords4/common/engine.c:897-927 | Collects the filled squares to the left, nearest first. |
| `Engine.EngineCtxt.ConsumeFromLeft` | xwords4/common/engine.c:897-927 | Reaches the node the tiles left of the anchor spell, or none. |
| `Engine.EngineCtxt.IsAnchorSquare` | xwords4/common/engine.c:809-837 | An empty square next to a filled one, or on the first move the star square. |
| `Engine.EngineCtxt.FindMovesForAnchor` | xwords4/common/engine.c:857-895 | Makes the calls of its anchor, by leftPart or from the tiles already to the left, and restores the rack. |
| `Engine.EngineCtxt.CandidateBits` | xwords4/common/engine.c:748-765 | A tile's bit is set if and only if that tile followed by the tiles below is accepted from the node reached. |
| `Engine.EngineCtxt.StartAbove` | xwords4/common/engine.c:675-687 | The first row of the filled squares above. |
| `Engine.EngineCtxt.ConsumeAbove` | xwords4/common/engine.c:700-730 | Reaches the node the squares above spell. |
| `Engine.EngineCtxt.TilesBelow` | xwords4/common/engine.c:737-746 | The filled squares below, in order. |
| `Engine.CrossSplit` | xwords4/common/engine.c:659-771 | A tile forms an accepted word across if and only if the squares above lead to a node from which the tile and the squares below are accepted. |
| `Engine.EngineCtxt.FigureCrosschecks` | xwords4/common/engine.c:659-771 | The bit of a tile is set exactly if the square has no vertical neighbour or the tile forms an accepted word there; other columns keep their bits. |
| `Engine.EngineCtxt.FillRowChecks` | xwords4/common/engine.c:616-625 | Afterwards every empty column of the row has its cross-check bits. |
| `Engine.EngineCtxt.FindMovesOneRow` | xwords4/common/engine.c:590-634 | The anchor loop makes exactly the calls of the row search and restores the rack. |
| `Engine.EngineCtxt.SearchDirection` | xwords4/common/engine.c:514-526 | All rows in one direction. |
| `Engine.EngineCtxt.SearchAll` | xwords4/common/engine.c:486-537 | Both directions: the calls made are AllCalls, and the rack is as at the start. |
| `Engine.SearchExact` | xwords4/common/engine.c:389-588 | considerMove is called with a placement if and only if the rules allow it in that direction and row. |
| `Engine.SearchOnce` | xwords4/common/engine.c:389-588 | And never twice with the same one. |
| `BoardRules.BoardExact` | xwords4/common/engine.c:782-837 | In terms of rows and columns of the board alone: a call is allowed if and only if its tiles go on empty squares of one row (across) or one column (down), one accepted word of that line of the filled board holds them all, every longer word through one of them the other way is accepted, and one of them is on the star or beside a tile. |
| `BoardRules.SearchOnBoard` | xwords4/common/engine.c:389-588 | considerMove is called with exactly those placements. |
| `BoardRules.TrayDraws` | xwords4/common/engine.c:248-266 | Which tiles a tray can supply, as multisets: at most nine, and what it lacks no more than its blanks; the blanks stand for what it lacks. |
| `Blanks.MarkingsExact` | xwords4/common/engine.c:1128-1205 | The ways tried are exactly those that mark, among the unmarked tiles with the right faces, one tile for each blank value. |
| `Blanks.MarkingsOnce` | xwords4/common/engine.c:1181-1203 | If no two blanks stand for the same face, no way is tried twice. |
| `Blanks.TwiceMarked` | xwords4/common/engine.c:1181-1203 | Two blanks for one face are tried in both orders, with the same outcome. |
| `Blanks.MoveScorer.ConsiderScoreWordHasBlanks` | xwords4/common/engine.c:1128-1205 | The recursion scores exactly those ways and leaves the move as it found it. |
| `MoveOrder.CmpOrder` | xwords4/common/engine.c:268-285 | cmpMoves is a total order: antisymmetric, transitive, and zero only for equal moves. |
| `MoveOrder.CmpExact` | xwords4/common/engine.c:268-285 | It puts a move above another if and only if it scores more, or as much with fewer blanks, or else has the higher byte where the two first differ, in the move and then in the blanks. |
| `MoveOrder.DescendingIsBestFirst` | xwords4/common/engine.c:268-285 | In a descending list no move follows one it is preferred to: scores never rise, and among equal scores blanks never fall. |
| `MoveOrder.BestReplace` | xwords4/common/engine.c:1207-1292 | Replacing the lowest kept move by a higher one keeps the best `n` of one more candidate. |
| `MoveOrder.BestDrop` | xwords4/common/engine.c:1207-1292 | Passing over a move not above the lowest does too. |
| `MoveCache.MoveIterationData.SaveMoveIfQualifies` | xwords4/common/engine.c:1207-1292 | The slots go on holding the best ten of the positive candidates strictly beyond the last one seen. |
| `MoveCache.MoveIterationData.FindSlot` | xwords4/common/engine.c:1231-1264 | The slot to overwrite: an empty one, or the lowest. |
| `MoveCache.MoveIterationData.SortMoves` | xwords4/common/engine.c:321-335 | The bubble sort leaves the same moves in ascending order. |
| `MoveCache.MoveIterationData.SetSearchLimits` | xwords4/common/engine.c:1294-1311 | Called when a page has been walked through, it makes the last answer the limit, so that what the next page may hold is exactly what has not been answered. |
| `MoveCache.MoveIterationData.Search` | xwords4/common/engine.c:1207-1292 | After any list of candidates the cache holds the best ten below the limit. |
| `MoveCache.MoveIterationData.InitMoveCache` | xwords4/common/engine.c:1313-1335 | Counts the used slots at the upper end and stands above the highest. |
| `MoveCache.MoveIterationData.FindMove` | xwords4/common/engine.c:306-360 | Each call answers the candidate next below the previous answer, with none strictly between, refilling the cache when it has run out; none only when no candidate is left. |
| `MoveCache.MoveIterationData.StepThrough` | xwords4/common/engine.c:306-360 | Calling until the search starts over answers every candidate with a positive score and nothing else, best first (by score, then fewer blanks, then the bytes of the move), across all refills, each once if no two candidates are equal, and then the highest again. |
| `MoveCache.MoveIterationData.EngineReset` | xwords4/common/engine.c:225-239 | No answer is remembered and the search begins above every move. |
| `MoveCache.MoveIterationData.EngineFindMove` | xwords4/common/engine.c:389-588 | The next lower candidate, or, when there is none, the highest; none only when there is no candidate. |
| `EngineMoves.DroppedIsKept` | xwords4/common/engine.c:1133-1165 | A one-tile move dropped by the vertical pass is allowed in the horizontal direction too, on the same square with the same blank, and is kept there. |
| `EngineMoves.KeptOnce` | xwords4/common/engine.c:1133-1165 | Two kept calls that put the same tiles on the same squares are one call, unless the tile alone is a word of the dictionary. |
| `EngineMoves.AllMovesExact` | xwords4/common/engine.c:1084-1203 | The candidates made from any calls are exactly the markings of the kept ones, with their scores. |
| `EngineMoves.ConsiderAll` | xwords4/common/engine.c:1084-1203 | The loop over the calls, marking blanks in place, makes those candidates in order. |
| `EngineMoves.MoveTells` | xwords4/common/engine.c:1092-1117 | The bytes of a saved move tell the direction, the squares, the tiles and which of them are blanks. |
| `EngineMoves.SavedBlanks` | xwords4/common/engine.c:1168-1176 | A saved move knows how many of its tiles are blanks and what each stands for. |
| `EngineMoves.TiesBroken` | xwords4/common/engine.c:268-285 | Of moves with the same score, fewer blanks come first, then more tiles, then the higher row or column, then across before down. |
| `EngineMoves.TileTieBroken` | xwords4/common/engine.c:268-285 | Then the first tile in which they differ decides, by its place and then by its face. |
| `EngineMoves.AllMovesOnce` | xwords4/common/engine.c:1084-1203 | If no two blanks of a call stand for the same face, no candidate comes up twice. |
| `EngineMoves.OfferMoves` | xwords4/common/engine.c:389-588 | For any board, rack, dictionary and score, calling engine_findMove until it starts over answers a move if and only if it is a placement the rules of the board allow, with a legal choice for its blanks and scores, best first (higher score, then fewer blanks), and each once if no two blanks of a call stand for the same face. |
| `CommsState.RecordFor` | xwords4/common/comms.c:2784-2814 | The first record that matches the channel under the mask, and no earlier one does. |
| `CommsQueue.RecordForIs` | xwords4/common/comms.c:2784-2814 | With distinct channels, the only record of that channel. |
| `CommsKeep.SendEffect` | xwords4/common/comms.c:1837-1870 | A send changes one record: the next number, a packet with it at the end of the queue quoting what has been saved; the queue invariant holds. |
| `CommsQueue.KeepRun` | xwords4/common/comms.c:2035-2061 | What an acknowledgement leaves of a queue: the numbered packets stay a contiguous run, cut at the front. |
| `CommsQueue.KeepOthers` | xwords4/common/comms.c:2035-2061 | A queue of another established channel loses nothing. |
| `CommsQueue.RemoveEffect` | xwords4/common/comms.c:2063-2095 | An acknowledgement touches one channel's queue only, and queueLen still counts all packets. |
| `CommsQueue.AckedRun` | xwords4/common/comms.c:2035-2095 | The run of numbers moves up by exactly the number of packets acknowledged and still ends at nextMsgID. |
| `CommsQueue.AckAnyEffect` | xwords4/common/comms.c:2370-2400 | Every record that is owed an ACK, and no other, ends with one that quotes lastMsgSaved and counts as told; nothing else changes. |
| `CommsKeep.ReceiveEffect` | xwords4/common/comms.c:2965-3253 | Everything a received packet does to the state, in all its cases: old, next, too early, an ACK, or rejected by the game. |
| `CommsKeep.ReceiveKeeps` | xwords4/common/comms.c:3198-3253 | A packet is taken if and only if it carries the next number, and then lastMsgRcd is that number; the queue invariant holds. |
| `CommsKeep.SavedEffect` | xwords4/common/comms.c:1205-1223 | A finished save raises lastMsgSaved to lastMsgRcd exactly if its token is the latest, and queues an ACK that says so on every record that is behind. |
| `CommsAcks.SavedAcks` | xwords4/common/comms.c:1205-1223 | After a finished save every record that was behind ends with an ACK for all it has taken; the others gain nothing. |
| `CommsAcks.LateAcks` | xwords4/common/comms.c:2989-2993 | A number out of order is answered on every record by an ACK for what has been saved. |
| `CommsAcks.AckHeard` | xwords4/common/comms.c:2967-2984 | A bare ACK takes off its channel exactly the packets up to the number it quotes; nothing else changes. |
| `CommsAcks.SavedIsHeard` | xwords4/common/comms.c:1205-1223 | Delivered, the ACK of a save leaves the peer exactly the packets above what the device has taken. |
| `CommsAcks.LateIsHeard` | xwords4/common/comms.c:2989-2993 | Delivered, the answer to a packet out of order leaves the peer exactly the packets above what has been saved. |
| `CommsAcks.RemovedExactly` | xwords4/common/comms.c:2035-2095 | What an acknowledgement leaves in any queue, whether channels are established or not: the packets with higher numbers and those on other established channels. |
| `CommsAcks.ChannelBits` | xwords4/common/comms.c:2784-2814 | Two channel numbers mean the same record if and only if they agree but for the low two bits, or are both without others and equal. |
| `CommsAcks.PassedOver` | xwords4/common/comms.c:1837-1870 | An empty message, an unknown channel or a token that is not the latest changes nothing. |
| `CommsKeep.SaveLoad` | xwords4/common/comms.c:746-929 | Writing and loading gives the same records and queues less the ACKs, with lastMsgSaved at lastMsgRcd. |
| `CommsKeep.RestartOk` | xwords4/common/comms.c:746-929 | The restored state satisfies the queue invariant. |
| `CommsSafety.SendKeeps` | xwords4/common/comms.c:1837-1870 | A send keeps the protocol invariant of the device against any peers. |
| `CommsSafety.DeliverKeeps` | xwords4/common/game.c:477-508 | So does any delivery, old or new. |
| `CommsSafety.WriteKeeps` | xwords4/common/comms.c:1112-1195 | So does beginning a save. |
| `CommsSafety.CommitKeeps` | xwords4/common/comms.c:1205-1223 | So does a save reaching the disk. |
| `CommsSafety.NotifyKeeps` | xwords4/common/comms.c:1205-1223 | So does the notice of it, however late. |
| `CommsSafety.CrashKeeps` | xwords4/common/comms.c:746-929 | So does a restart from the last save when the sends were saved, which CrashExact shows to be necessary. |
| `CommsRuns.StepKeeps` | xwords4/common/game.c:477-508 | Every step of the world (send, transmit, deliver, write, commit, notify, and a restart whose sends are saved) keeps the invariant. |
| `CommsRuns.InitInv` | xwords4/common/comms.c:746-929 | An established channel with nothing sent satisfies it. |
| `CommsRuns.RunKeeps` | xwords4/common/game.c:477-508 | So it holds after any run whose restarts are careful. |
| `CommsRuns.EndSafe` | xwords4/common/comms.c:2035-2095 | Under the invariant, what a device took on a channel is the first lastMsgRcd messages its peer numbered; no ACK, queued or in flight, is above what is on disk; and whatever the peer could still lose is still queued. |
| `CommsRuns.AlwaysSafe` | xwords4/common/comms.c:1837-3253 | All three hold at every channel end after any run of losses, repeats, reorderings, resends, saves and careful restarts. |
| `CommsRuns.CatchesUp` | xwords4/common/comms.c:2318-2367 | From any reachable world, sending one queue again and delivering it in order brings the peer's log to everything numbered, and its lastMsgRcd to nextMsgID. |
| `CommsCrash.UnsavedBreaks` | xwords4/common/comms.c:1837-1870 | In every world that satisfies the invariant, restarting with an unsaved send on a channel and sending anything there leaves a numbered message that the peer may lack and that is no longer held. |
| `CommsCrash.CrashExact` | xwords4/common/comms.c:746-929 | A restart is harmless on every channel, whatever is sent next, if and only if the sends were saved; then the invariant is kept. |
| `CommsCrash.UnsavedSendQueues` | xwords4/common/comms.c:1837-1870 | How the queues and counters of the two devices look after each step of such a loss. |
| `CommsCrash.UnsavedSendIsLost` | xwords4/common/comms.c:1837-1870 | A run of the world from its start, with network, disk and restart, after which a message its sender counts as taken is held by nobody and was never taken. |
| `CommsObjects.CommsCtxt.GetRecordFor` | xwords4/common/comms.c:2784-2814 | The walk over the records finds the first that matches. |
| `CommsObjects.CommsCtxt.MakeElemWithID` | xwords4/common/comms.c:1460-1530 | The header quotes lastMsgSaved, which becomes lastMsgAckd. |
| `CommsObjects.CommsCtxt.AppendTo` | xwords4/common/comms.c:1886-1932 | A packet equal to the last one queued is not queued again; queueLen counts what was added. |
| `CommsObjects.CommsCtxt.AddToQueue` | xwords4/common/comms.c:1886-1932 | The same, on the record of the packet's channel. |
| `CommsObjects.CommsCtxt.Post` | xwords4/common/comms.c:1460-1530 | Makes a packet and queues it. |
| `CommsObjects.CommsCtxt.Send` | xwords4/common/comms.c:1837-1870 | The mutable records change as the state function Send says; an empty message or an unknown channel changes nothing. |
| `CommsObjects.CommsCtxt.TrimQueue` | xwords4/common/comms.c:480-508 | The walk that unlinks acknowledged packets leaves exactly the others, in order. |
| `CommsObjects.CommsCtxt.RemoveFromQueue` | xwords4/common/comms.c:2063-2095 | All records are trimmed as the state function says. |
| `CommsObjects.CommsCtxt.AckAny` | xwords4/common/comms.c:2370-2400 | ACKs are queued on the records that need one, as the state function says. |
| `CommsObjects.CommsCtxt.SaveSucceeded` | xwords4/common/comms.c:1205-1223 | Acts only for the latest token. |
| `CommsObjects.CommsCtxt.ValidateChannelMessage` | xwords4/common/comms.c:2965-3002 | Applies the ACK, then names the record if the number is the next one; otherwise answers an out-of-order packet with forced ACKs. |
| `CommsObjects.CommsCtxt.MsgProcessed` | xwords4/common/comms.c:3213-3253 | lastMsgRcd rises to the packet's number unless the game rejected it. |
| `CommsObjects.CommsCtxt.ReceiveMessage` | xwords4/common/game.c:477-508 | The whole receive step does what the state function Receive says. |
| `CommsObjects.CommsCtxt.WriteToStream` | xwords4/common/comms.c:1112-1195 | The saved image is that of the state, and the token is remembered. |
| `CommsObjects.CommsCtxt.MakeFromStream` | xwords4/common/comms.c:746-929 | The restored objects have the state Loaded gives. |
| `CommsObjects.WriteElems` | xwords4/common/comms.c:1075-1110 | ACKs are left out of what is saved. |
| `PatFilter.TakeExact` | xwords4/common/dictiter.c:690-731 | Taking tiles one by one from a counted set with blanks as wildcards succeeds if and only if the tiles not covered by the set are at most the blanks in it. |
| `PatFilter.StreakTakes` | xwords4/common/dictiter.c:690-731 | Subtracting the tiles of a streak from a counted set never fails in the middle of a search. |
| `PatFilter.StreakMatches` | xwords4/common/dictiter.c:910-987 | For every pattern, every bit set on any level is a real partial match, a maximum of zero counting as one: its streak is a block of that element, and what precedes it splits into blocks of the earlier elements within their limits. |
| `PatFilter.FilterSound` | xwords4/common/dictiter.c:910-1042 | For every pattern, if the filter accepts, a maximum of zero counting as one, the word splits into consecutive blocks, one for each element, with between its minimum and maximum of tiles from its set, and from a counted set no tile more often than listed; the last block of a word is within its own element's maximum. |
| `PatFilter.ZeroMaxSlips` | xwords4/common/dictiter.c:753-831 | An accepted word that does not match, for a maximum of zero. |
| `PatFilter.MatchMissed` | xwords4/common/dictiter.c:801-812 | A matching word that is not accepted. |
| `PatExact.FilterComplete` | xwords4/common/dictiter.c:753-1042 | Under NoRestart, every word that matches is accepted. |
| `PatExact.FilterExact` | xwords4/common/dictiter.c:753-1042 | Under NoRestart, the filter accepts a word if and only if it matches; with maxima of zero, what it accepts lies between the pattern and the pattern with those raised to one. |
| `PatExact.RestartLoses` | xwords4/common/dictiter.c:801-812 | Which matching words are turned down: those whose last block follows a tile that could have begun it. |
| `PatExact.PairLoses` | xwords4/common/dictiter.c:801-812 | An element that could take one tile more, followed by one that fits that tile, loses a word that matches. |
| `PatExact.LastExact` | xwords4/common/dictiter.c:753-1042 | For patterns of which only the last two elements may vary, the filter accepts all matching words up to a length if and only if those two share no tile, the first of them does not vary, or the words are too short to outgrow the last. |
| `DictPaths.CutAt` | xwords4/common/dictiter.c:1088-1180 | The order of visits is what precedes a path, the path, and what follows it: the stack alone says what has been and what is to come. |
| `DictPaths.AfterChild` | xwords4/common/dictiter.c:1130-1140 | Going down: the first child that matches comes next, or the paths after the subtree do. |
| `DictPaths.LaterSibling` | xwords4/common/dictiter.c:1142-1161 | Going on: the next matching sibling comes next, or the search goes up. |
| `DictPaths.BeforeStep` | xwords4/common/dictiter.c:1216-1260 | Going back: what precedes a path ends with the last path under the previous matching sibling, or with its parent. |
| `DictPaths.LastChild` | xwords4/common/dictiter.c:1192-1214 | The last path of a run is under its last matching edge. |
| `DictWords.InOrder` | xwords4/common/dictiter.c:1123-1180 | Paths, and so words, are visited in strictly ascending order of tiles, so none twice. |
| `DictWords.VisitsPaths` | xwords4/common/dictiter.c:1088-1180 | The visits are exactly the paths of the graph that the patterns allow, up to the maximum length. |
| `DictWords.PathSpells` | xwords4/common/dictiter.c:1088-1106 | A stack's tiles lead from the top to its last edge, and that edge is accepting exactly if they spell a word. |
| `DictWords.ListsPassing` | xwords4/common/dictiter.c:1123-1180 | A word is reported if and only if it is accepted, has between min and max tiles, and passes every pattern. |
| `DictWords.ListsMatching` | xwords4/common/dictiter.c:1123-1180 | Under NoRestart and positive maxima, a word is reported if and only if it is accepted, has the right length and matches every pattern. |
| `DictWords.ListsExactly` | xwords4/common/dictiter.c:1332-1356 | Without patterns the words reported are exactly the accepted words with between min and max tiles. |
| `DictWords.SpellingsAre` | xwords4/common/dictiter.c:1568-1586 | Without patterns the list spells those words, each once, in ascending order. |
| `DictWords.ListedPath` | xwords4/common/dictiter.c:1123-1180 | With patterns, every word reported is an accepted word of the right length. |
| `DictWords.ListedMatches` | xwords4/common/dictiter.c:989-1042 | And matches every pattern, a maximum of zero counting as one. |
| `DictIndex.AtPosition` | xwords4/common/dictiter.c:1793-1850 | Standing on word `i`, exactly `i` words lie behind and the rest ahead. |
| `DictIndex.FirstFrom` | xwords4/common/dictiter.c:1302-1314 | The first word with a prefix is the first reported from the prefix's own stack on. |
| `DictIndex.StartsCut` | xwords4/common/dictiter.c:1704-1744 | The places where the prefix changes cut the list into blocks of one prefix each, strictly increasing. |
| `DictIndex.StartIsFirst` | xwords4/common/dictiter.c:1704-1791 | Each entry is the number of words before the first word with its prefix. |
| `DictIndex.Interval` | xwords4/common/dictiter.c:1704-1744 | Words between two with the same prefix have it too. |
| `DictIters.Limits` | xwords4/common/dictiter.c:1603-1643 | Lengths asked for are kept if they are in range; otherwise the lower becomes 2 and the upper MAX_COLS_DICT, each where it is wrong. |
| `DictIters.CountStreak` | xwords4/common/dictiter.c:690-731 | The backward loop counts the streak and takes its tiles from the set. |
| `DictIters.DictIter.CountPrevOccurs` | xwords4/common/dictiter.c:690-731 | How many levels in a row have the bit set, and what is left of the counted set. |
| `DictIters.DictIter.GetMatchInfo` | xwords4/common/dictiter.c:753-831 | Whether the element may match the tile now, and whether it is optional. |
| `DictIters.DictIter.PatHasMatch` | xwords4/common/dictiter.c:910-987 | The next bit sets of all patterns, or none if one of them is empty. |
| `DictIters.DictIter.NextElems` | xwords4/common/dictiter.c:910-987 | The loop over one pattern's elements gives the recursive definition of the next set. |
| `DictIters.DictIter.PatMatchFinished` | xwords4/common/dictiter.c:989-1042 | Whether each pattern can end here. |
| `DictIters.DictIter.AcceptIter` | xwords4/common/dictiter.c:989-1042 | A word that no pattern still needs more of. |
| `DictIters.DictIter.NextPeerMatch` | xwords4/common/dictiter.c:1066-1086 | The first matching sibling from an edge on. |
| `DictIters.DictIter.PrevPeerMatch` | xwords4/common/dictiter.c:1044-1064 | The last matching sibling up to an edge. |
| `DictIters.DictIter.PushEdge` | xwords4/common/dictiter.c:1088-1106 | The stack is one entry longer. |
| `DictIters.DictIter.PopEdge` | xwords4/common/dictiter.c:1108-1121 | The stack is one entry shorter. |
| `DictIters.DictIter.Descend` | xwords4/common/dictiter.c:1130-1140 | One step down in the order of visits. |
| `DictIters.DictIter.MoveOn` | xwords4/common/dictiter.c:1142-1161 | One step on, popping levels that are finished. |
| `DictIters.DictIter.NextWord` | xwords4/common/dictiter.c:1123-1180 | Succeeds exactly if a word lies ahead, and moves to the next one; otherwise the stack is empty. |
| `DictIters.DictIter.FirstWord` | xwords4/common/dictiter.c:1332-1356 | No word and no change exactly when no top edge passes against the old stack; otherwise the first word from the edge found there on; and the first word of the list when that edge is the one found from an empty stack. |
| `DictIters.DictIter.CountWords` | xwords4/common/dictiter.c:1568-1586 | The loop over all words terminates with the length of the list. |
| `DictIters.DictIter.constructor` | xwords4/common/dictiter.c:1603-1643 | A new iterator without patterns counts exactly the accepted words of the lengths asked for, or of 2 to 15 tiles; with patterns, its list. |
| `DictIters.DictIter.PushLastEdges` | xwords4/common/dictiter.c:1192-1214 | To the last path under a run. |
| `DictIters.DictIter.StepBack` | xwords4/common/dictiter.c:1216-1260 | To the path visited before. |
| `DictIters.DictIter.PrevWord` | xwords4/common/dictiter.c:1216-1260 | Succeeds exactly if a word lies behind, and moves to the last one: the inverse of NextWord. |
| `DictIters.DictIter.LastWord` | xwords4/common/dictiter.c:1816-1839 | To the last word of the list, after which none is ahead. |
| `DictIters.DictIter.DiFirstWord` | xwords4/common/dictiter.c:1793-1803 | Under the same conditions, position 0 is the first word. |
| `DictIters.DictIter.DiNextWord` | xwords4/common/dictiter.c:1805-1814 | From word `i` to word `i + 1`, if there is one. |
| `DictIters.DictIter.DiPrevWord` | xwords4/common/dictiter.c:1841-1850 | From word `i` to word `i - 1`, if there is one. |
| `DictIters.DictIter.DiLastWord` | xwords4/common/dictiter.c:1816-1839 | To word `nWords - 1`. |
| `DictNth.FindStartsWithTiles` | xwords4/common/dictiter.c:1262-1290 | The stack becomes the path that spells the prefix. |
| `DictNth.StackStartsWith` | xwords4/common/dictiter.c:1292-1300 | Whether the word stood on has the prefix. |
| `DictNth.FindWordStartsWith` | xwords4/common/dictiter.c:1302-1314 | To the first word of the list that has the prefix. |
| `DictNth.TryIndex` | xwords4/common/dictiter.c:1704-1744 | One more word seen: an entry is added exactly if its prefix is new. |
| `DictNth.MakeIndex` | xwords4/common/dictiter.c:1746-1791 | Afterwards entry `k` holds the k-th prefix and the number of words before its first word. |
| `DictNth.ClosestEntry` | xwords4/common/dictiter.c:1645-1677 | The binary search ends at an entry nearest to the position. |
| `DictNth.PlaceWordClose` | xwords4/common/dictiter.c:1645-1677 | The iterator stands on the word of that entry, and its position is answered. |
| `DictNth.WalkTo` | xwords4/common/dictiter.c:1909-1923 | Steps forwards or backwards end on the word wanted. |
| `DictNth.NearerEnd` | xwords4/common/dictiter.c:1890-1906 | Without an index the walk starts where the iterator is or at the nearer end, never more than half the list away; only when that is the first end must firstWord be able to start over. |
| `DictNth.GetNthWord` | xwords4/common/dictiter.c:1855-1930 | Lands on word `position` whichever way it takes there, and fails without a change when it is past the end. |
| `DictNth.StaleStackHides` | xwords4/common/dictiter.c:1332-1356 | The first edge is turned down while another word is on the stack. |
| `DictNth.NoPatternsFresh` | xwords4/common/dictiter.c:1332-1356 | Without patterns the top edge found is the one found from an empty stack, so that firstWord may always start over. |
| `DictNth.StartingOverFails` | xwords4/common/dictiter.c:1793-1803 | An iterator that finds the first word and, asked again, finds none. |
| `BitStream.ValueOfBits` | xwords4/common/memstream.c:204-218 | Reading a value's bits gives the value, for every width that holds it. |
| `BitStream.BitWeight` | xwords4/common/memstream.c:183-203 | Bit `i` of a byte is the one of weight 2 to the `i`. |
| `BitStream.ByteValueIs` | xwords4/common/memstream.c:204-222 | A byte read as bits has the value of the byte. |
| `BitStream.PutBitAt` | xwords4/common/memstream.c:323-347 | What one written bit does to every bit of the stream. |
| `BitStream.PutBitsAt` | xwords4/common/memstream.c:349-371 | What written bits do to every bit: they are there, bits later in a byte begun anew are cleared, all others stay. |
| `BitStream.PutHolds` | xwords4/common/memstream.c:349-371 | Bits written after others leave those in place. |
| `BitStream.BytesHold` | xwords4/common/memstream.c:252-292 | So do bytes, which start at the next whole byte. |
| `BitStream.HeldBytes` | xwords4/common/memstream.c:127-156 | Whole bytes read back are the bytes written. |
| `BitStream.SameHashedBytes` | xwords4/common/memstream.c:429-452 | Two buffers with the same first `n` bits give the hash the same bytes. |
| `JenkinsHash.Augment` | xwords4/common/strutils.c:396-406 | The loop hashes all the bytes, in order, on top of the hash given. |
| `JenkinsHash.StepTells` | xwords4/common/strutils.c:396-406 | One byte more keeps different hashes apart, and different bytes make them so. |
| `JenkinsHash.FinishTells` | xwords4/common/strutils.c:408-415 | Finishing keeps different hashes apart. |
| `JenkinsHash.OneByteTells` | xwords4/common/strutils.c:396-415 | Strings of bytes that differ in one byte have different hashes. |
| `JenkinsHash.KnownHashes` | xwords4/common/strutils.c:396-415 | Known values: of no bytes, of "a", and of a stack on which tile 1 has been drawn. |
| `MemStreams.MemStream.PutBytes` | xwords4/common/memstream.c:252-292 | Bytes go to the next whole byte; whatever was from there on is gone. |
| `MemStreams.MemStream.PutOneBit` | xwords4/common/memstream.c:323-347 | Sets one bit and moves on by one bit. |
| `MemStreams.MemStream.PutBitsOf` | xwords4/common/memstream.c:349-371 | The low bits of a value, lowest first. |
| `MemStreams.MemStream.PutU8` | xwords4/common/memstream.c:303-307 | One byte. |
| `MemStreams.MemStream.PutU16` | xwords4/common/memstream.c:309-314 | Two bytes, high byte first. |
| `MemStreams.MemStream.PutU32` | xwords4/common/memstream.c:316-321 | Four bytes, high byte first. |
| `MemStreams.MemStream.PutU32VL` | xwords4/common/memstream.c:375-390 | Seven bits to a byte, lowest first, the top bit saying that more follow. |
| `MemStreams.MemStream.GetBytes` | xwords4/common/memstream.c:127-156 | The bytes from the next whole byte on. |
| `MemStreams.MemStream.GetOneBit` | xwords4/common/memstream.c:183-202 | The bit at the read position. |
| `MemStreams.MemStream.GetBits` | xwords4/common/memstream.c:204-218 | The value of the bits at the read position. |
| `MemStreams.MemStream.GetU8` | xwords4/common/memstream.c:158-164 | The byte read. |
| `MemStreams.MemStream.GetU16` | xwords4/common/memstream.c:166-173 | The number whose two bytes are there. |
| `MemStreams.MemStream.GetU32` | xwords4/common/memstream.c:175-181 | The number whose four bytes are there. |
| `MemStreams.MemStream.GetU32VL` | xwords4/common/memstream.c:220-232 | The number whose variable-length form is there. |
| `MemStreams.MemStream.GetFromStream` | xwords4/common/memstream.c:392-406 | Copies in chunks what one move would copy. |
| `MemStreams.MemStream.GetSize` | xwords4/common/memstream.c:421-427 | The bytes not yet read. |
| `MemStreams.MemStream.GetHash` | xwords4/common/memstream.c:429-452 | The hash of the bytes before a position, the last one masked. |
| `MemStreams.MemStream.GetWritePos` | xwords4/common/memstream.c:500-513 | The position as one number. |
| `MemStreams.MemStream.SetWritePos` | xwords4/common/memstream.c:515-531 | A position taken from GetWritePos is the same place again. |
| `MemStreams.MemStream.GetReadPos` | xwords4/common/memstream.c:500-513 | The position as one number. |
| `MemStreams.MemStream.SetReadPos` | xwords4/common/memstream.c:515-531 | A position taken from GetReadPos is the same place again. |
| `MemStreams.ItemsStored` | xwords4/common/memstream.c:252-390 | After any mixture of bits, bytes and variable-length numbers written from any position over any data, every item is stored where reading it will look. |
| `MemStreams.WriteItems` | xwords4/common/memstream.c:252-390 | Writing the mixture does that. |
| `MemStreams.ReadItems` | xwords4/common/memstream.c:127-232 | Reading the same shapes gives the same items and ends where writing ended. |
| `StackCodec.BitsForMax` | xwords4/common/strutils.c:29-41 | Enough bits for the largest score. |
| `StackCodec.BitsForMaxBound` | xwords4/common/strutils.c:29-41 | And no more than needed. |
| `StackCodec.TilesToStream` | xwords4/common/strutils.c:43-49 | The tiles, in order, at six bits each. |
| `StackCodec.TraySetToStream` | xwords4/common/strutils.c:51-57 | The count and the tiles. |
| `StackCodec.TraySetFromStream` | xwords4/common/strutils.c:98-104 | Reads back the tray written. |
| `StackCodec.MoveInfoToStream` | xwords4/common/strutils.c:116-141 | The count, the common coordinate and direction, and each tile's coordinate, tile and blank bit. |
| `StackCodec.MoveInfoFromStream` | xwords4/common/strutils.c:143-167 | Reads back the move written. |
| `StackCodec.ScoresToStream` | xwords4/common/strutils.c:67-85 | The width and the scores at that width. |
| `StackCodec.ScoresFromStream` | xwords4/common/strutils.c:87-96 | Reads back the scores written. |
| `StackCodec.FieldsFit` | xwords4/common/movestak.c:233-294 | Every field of a proper entry fits into its width. |
| `MoveStacks.WriteEntry` | xwords4/common/movestak.c:233-294 | Appends the entry's bits and keeps all before. |
| `MoveStacks.ReadEntry` | xwords4/common/movestak.c:328-370 | Reads back the entry written, of every type, and stands after it. |
| `MoveStacks.PutString` | xwords4/common/strutils.c:278-296 | Length and text, aligned to bytes. |
| `MoveStacks.GetString` | xwords4/common/strutils.c:228-250 | Reads back the text. |
| `MoveStacks.HashFits` | xwords4/common/movestak.c:93-101 | The hash depends on the bits up to the top only, not on what undo left behind them. |
| `MoveStacks.StackCtxt.constructor` | xwords4/common/movestak.c:112-125 | An empty stack. |
| `MoveStacks.StackCtxt.PushEntry` | xwords4/common/movestak.c:233-294 | The entries above the cursor are replaced by the new one, and the cursor is after it. |
| `MoveStacks.StackCtxt.SetCacheReadyFor` | xwords4/common/movestak.c:479-495 | The cached position becomes that of the entry wanted, wherever it was before. |
| `MoveStacks.StackCtxt.GetNthEntry` | xwords4/common/movestak.c:503-532 | Entry `n` of the list, in any order of asking, if the cursor is beyond it. |
| `MoveStacks.StackCtxt.PopEntry` | xwords4/common/movestak.c:534-546 | The entry below the cursor, and the cursor moves below it; the bits stay. |
| `MoveStacks.StackCtxt.Redo` | xwords4/common/movestak.c:575-588 | Possible exactly below the high-water mark; gives the entry above the cursor and moves it up. |
| `MoveStacks.StackCtxt.GetHash` | xwords4/common/movestak.c:93-101 | A function of the layout and the entries below the cursor. |
| `MoveStacks.StackCtxt.WriteToStream` | xwords4/common/movestak.c:181-215 | The saved image holds the counters and the bytes, and the version of the stack's own stream exactly if the target stream knows of nine tiles; saving changes nothing. |
| `MoveStacks.StackCtxt.LoadFromStream` | xwords4/common/movestak.c:138-179 | From an image written on a stream of any version: bytes, counters and flags as saved, the version taken for the entries, and the stack of the entries that the bytes hold in that layout. |
| `StackCopies.SaveAndLoad` | xwords4/common/movestak.c:138-215 | Saving on a stream that knows of nine tiles and loading gives a stack with the same entries, cursor, bytes and layout; on an older stream, the same bytes under the layout for seven tiles. |
| `StackCopies.SameCarried` | xwords4/common/movestak.c:138-179 | Two layouts that count tiles and write lengths alike read the same entries from the same bytes. |
| `StackCopies.ShorterEntry` | xwords4/common/strutils.c:51-57 | An entry that carries tiles takes fewer bits in the layout for seven tiles. |
| `StackCopies.OtherTop` | xwords4/common/movestak.c:138-179 | So the saved top is the end of the entries in one of the two layouts only. |
| `StackCopies.CopyStack` | xwords4/common/movestak.c:217-231 | The copy has the bytes and counters of the stack but, if there is data, the layout for seven tiles, which is the stack's own if and only if it is of that version; without pauses the copy stands for the same entries if and only if the stack is of an older version than nine tiles. |
| `StackCopies.CopyMoves` | xwords4/common/model.c:2477-2491 | The stream having the stack's version, the copy has the same entries, done and undone, the same cursor and bytes, and the same layout for every version that can occur. |
| `StackCopies.OneTileMisread` | xwords4/common/strutils.c:98-104 | For every tile, the bits of its entry in the one layout are those of another tile's in the other, and one bit more. |
| `StackCopies.CopyMisreads` | xwords4/common/movestak.c:217-231 | A stack of one tile, and its copy, in which another tile is read. |
| `StackHashes.OtherPosition` | xwords4/common/movestak.c:93-101 | Positions of as many bytes that differ in one of them have different hashes. |
| `StackHashes.OneTileBytes` | xwords4/common/movestak.c:233-294 | The two bytes of a stack on which one tile has been drawn. |
| `StackHashes.OtherTile` | xwords4/common/movestak.c:93-101 | For every two tiles, drawing the one or the other gives different hashes. |
| `StackHashes.OneTileHash` | xwords4/common/movestak.c:93-101 | The hash of such a stack, with its value for tile 1. |
| `StackHashes.KnownFields` | xwords4/common/movestak.c:252-288 | The fields and widths of an entry of every kind, in order. |
| `StackHashes.KnownLengths` | xwords4/common/strutils.c:67-87 | Scores of zero take a bit each; the length of a text takes one byte in older streams and as many as it needs in newer ones. |
| `StackHashes.KnownImage` | xwords4/common/movestak.c:182-215 | All bytes of a saved stack. |
| `MoveStacks.UndoRedo` | xwords4/common/movestak.c:534-588 | Undoing `k` entries and redoing them restores entries, cursor, top and bytes. |
| `Framing.FlagsApart` | xwords4/common/comms.c:2939-2957 | A flags word is never the marker of the long form. |
| `Framing.HeaderShort` | xwords4/common/comms.c:1460-1530 | A header's length fits the bits it is given. |
| `Framing.MakeElem` | xwords4/common/comms.c:1460-1530 | The packet is the flags, the header in its short or long form, and the payload. |
| `Framing.KnownPackets` | xwords4/common/comms.c:2940-2957 | All bytes of one header, in its short and in its long form. |
| `Framing.CheckChannel` | xwords4/common/comms.c:3012-3042 | A packet is for this side if and only if the other side sent it and its channel seed agrees. |
| `Framing.WhoTakes` | xwords4/common/comms.c:3015-3042 | A host takes what guests send; a guest that knows its channel takes what the host sends on it, whatever the low two bits, or on channel 0. |
| `Framing.ParseSmall` | xwords4/common/comms.c:3061-3092 | Reads back channel, number, ACK and payload of a short header. |
| `Framing.ParseBeef` | xwords4/common/comms.c:3044-3059 | Reads back those of a long header. |
| `Framing.ParseHeader` | xwords4/common/comms.c:3094-3211 | Tells the forms apart and reads back what was written, exactly if the packet is for this side. |
| `Framing.MakeMessages` | xwords4/common/device.c:437-506 | The count and each packet with its length. |
| `Framing.DispatchMsgs` | xwords4/common/device.c:570-597 | The non-empty packets are handed on in order; with 256 or more, as many as the count's low byte says. |
| `DLists.PlaceFor` | xwords4/common/dllist.c:23-50 | Before the first value that is not smaller. |
| `DLists.Insert` | xwords4/common/dllist.c:23-50 | The node stands there, links agree both ways, the head has no predecessor, and no other node is touched. |
| `DLists.Remove` | xwords4/common/dllist.c:52-71 | The list without the node, properly linked. |
| `DLists.Unlink` | xwords4/common/dllist.c:100-112 | The same while mapping, also for the head. |
| `DLists.Map` | xwords4/common/dllist.c:91-126 | Exactly the nodes the callback did not remove, in order, up to where it stopped and all behind; no other node is touched. |
| `DLists.Sort` | xwords4/common/dllist.c:140-151 | The nodes inserted one after the other, properly linked; no other node is touched. |
| `DLists.SortRight` | xwords4/common/dllist.c:140-151 | That list is ascending and a permutation of the nodes. |
| `Md5.RotateIs` | xwords4/common/md5.c:66-68 | The two shifts joined are the circular shift of RFC 1321, for every word and amount. |
| `Md5.IndexIs` | xwords4/common/md5.c:174-191 | The source's formulas for the next word give the order listed in section 3.4 of RFC 1321. |
| `Md5.OneOperation` | xwords4/common/md5.c:173-198 | One turn of the loop, whose variables change names, is one operation on the register whose turn it is. |
| `Md5.Md5Step` | xwords4/common/md5.c:162-204 | The registers become those of the standard's sixty-four operations on the block, added to the old ones. |
| `Md5.NextByte` | xwords4/common/md5.c:101-121 | What a byte does to the full blocks and to what waits. |
| `Md5.MD5Context.TakeBytes` | xwords4/common/md5.c:95-122 | After any bytes the registers are those of all full blocks so far and the rest waits in the buffer. |
| `Md5.MD5Context.Update` | xwords4/common/md5.c:95-122 | The context has taken what it had and the new bytes: two updates are one update with both. |
| `Md5.SameContext` | xwords4/common/md5.c:95-122 | Contexts that took the same bytes in different pieces have the same size, registers and waiting bytes. |
| `Md5.PadLengthIs` | xwords4/common/md5.c:130-131 | The padding is from 1 to 64 bytes and ends 8 bytes short of a block. |
| `Md5.LastBlock` | xwords4/common/md5.c:128-148 | Padding and length as section 3.1 and 3.2 of RFC 1321 put them are the block the source puts together. |
| `Md5.LowWords` | xwords4/common/md5.c:145-146 | The length appended is right although the size wraps around at 64 bits. |
| `Md5.MD5Context.Finalize` | xwords4/common/md5.c:128-157 | The digest is that of RFC 1321 for everything taken. |
| `Md5.CalcMD5Sum` | xwords4/common/md5.c:206-219 | For every input, the digest of RFC 1321 in lower-case hexadecimal. |
| `Md5.HexAt` | xwords4/common/md5.c:208-219 | Byte `i` is shown by digits 2i and 2i + 1, the higher half first. |
| `Md5Known.KnownDigest` | xwords4/common/md5.c:159-204 | The digest of "abc" is the one published in section A.5 of RFC 1321, register by register. |
| `TileText.FoundExact` | xwords4/common/dictnry.c:655-688 | From any point of the search, what is reported is exactly the spellings of the rest of the string, or of as much of it as the room left takes. |
| `TileText.SpellingsExact` | xwords4/common/dictnry.c:690-699 | For a string of up to 32 characters a tile sequence is reported if and only if it spells the string. |
| `TileText.Finder.TilesForString` | xwords4/common/dictnry.c:655-688 | The recursion over one buffer makes those reports, in order, up to the first that is answered with a stop, and leaves the tiles before it alone. |
| `TileText.MatchingFace` | xwords4/common/dictnry.c:670-684 | The first face the string begins with. |
| `TileText.AppendIfSpace` | xwords4/common/dictnry.c:600-610 | Appends the text if it fits with room to spare, or nothing. |
| `TileText.TilesToString` | xwords4/common/dictnry.c:612-648 | The buffer holds the faces in order with the delimiter between them and ends with a zero, if they fit; otherwise zero is answered. |
| `TileText.ThereAndBack` | xwords4/common/dictnry.c:612-699 | With one face to a tile, tiles are reported for a string exactly if it is their text. |
| `BoardGeometry.FigureDims` | xwords4/common/board.c:2261-2282 | Shares and left-over pixels are given out, and a change is reported exactly if there is one. |
| `BoardGeometry.AnyRunFills` | xwords4/common/board.c:2261-2303 | Any `n` cells in a row take up exactly the pixels shared out, whatever the scroll offset. |
| `BoardGeometry.ScrollData.FigureScale` | xwords4/common/board.c:2284-2303 | The columns in sight fill the width, the offset is brought into range, and no two cells differ by more than a pixel. |
| `BoardGeometry.ScrollData.FigureRows` | xwords4/common/board.c:2348-2391 | The rows in sight fill the height, all of them if they fit; scale and offset are brought into range. |
| `BoardGeometry.BoardCtxt.CellAlong` | xwords4/common/board.c:2421-2428 | The cell whose pixels, its first line excepted, hold the point. |
| `BoardGeometry.BoardCtxt.CoordToCell` | xwords4/common/board.c:2409-2445 | The cell in which the point lies, or none if it lies off the cells. |
| `BoardGeometry.BoardCtxt.GetCellRect` | xwords4/common/board.c:2457-2481 | Where a cell lies, and whether it is in sight; one in sight lies on the board. |
| `BoardGeometry.SpanUnique` | xwords4/common/board.c:2409-2445 | A point lies in one cell only. |
| `BoardGeometry.BoardCtxt.PointInCell` | xwords4/common/board.c:2409-2481 | A point strictly right of and below the corner of a cell in sight, within its size, is found in that cell and conversely, but for the board's own left and top edge. |
| `BufQueues.StoredMore` | xwords4/common/bufqueue.c:75-94 | A message put behind others leaves those as they were. |
| `BufQueues.BufQueue.ShiftDown` | xwords4/common/bufqueue.c:56-65 | The same messages, from the start of the buffer. |
| `BufQueues.BufQueue.Add` | xwords4/common/bufqueue.c:75-94 | Works exactly if the bytes in use leave room, wherever they lie, and puts the message last. |
| `BufQueues.BufQueue.Get` | xwords4/common/bufqueue.c:96-105 | The oldest message, if there is one. |
| `BufQueues.BufQueue.RemoveOne` | xwords4/common/bufqueue.c:107-120 | The others are left, in order. |
| `BufQueues.FirstInFirstOut` | xwords4/common/bufqueue.c:75-120 | Messages that fit together come out as they went in. |

## Left out

- Scoring: figureMoveScore is not part of this model; a move's score is an arbitrary function of the call and its marking, below 0xffff.
- The engine's search limits within a run, interrupted and resumed searches, the score cache, robot strength, the list of forbidden words, and paging backwards or in mixed directions.
- The board is a read-only grid of tiles; a cross-check word of 32 bits is the set of its bit positions.
- Dictionaries without a blank tile, and the byte layout of an edge (3 or 4 bytes): an edge is a record.
- Engine.EngineCtxt.FindMovesOneRow: rows are searched with no limit and no interruption; on the first move, which the source tells by the star square being empty, the star row and the rows beside it are clear.
- Engine.EngineCtxt.SearchDirection: the same; tiles on other rows are allowed on the first move.
- Engine.EngineCtxt.SearchAll: the same.
- Engine.SearchExact: the same.
- Engine.SearchOnce: the same.
- BoardRows.AnchorsAreOk: the same, and on the first move for the star row, the only one searched then.
- BoardRows.RowSearchExact: the same.
- EngineMoves.OfferMoves: the same; when two blanks of a call stand for one face the move is found in both orders (`Blanks.TwiceMarked`), and how often it is then answered is not stated.
- Engine.EngineCtxt.FigureCrosschecks: the score of the cross word, which the source works out in the same pass, is left out.
- Blanks.MoveScorer.ConsiderScoreWordHasBlanks: the saved blank values and the dropping of one-tile moves found twice are in `EngineMoves`.
- MoveCache.MoveIterationData.SaveMoveIfQualifies: the branches for a robot, which saves one move, and for paging backwards are left out.
- MoveCache.MoveIterationData.InitMoveCache: the position for paging backwards is left out.
- MoveCache.MoveIterationData.FindMove: for a human player stepping forward, with ten saved moves; the candidates are those of one uninterrupted search, the same for every refill.
- Invitations, the handshake that establishes a channel, addresses and their augmentation, quashing, transports, timers and back-off, mutexes and a wrong connection ID: every run starts from established channels.
- CommsRuns.AlwaysSafe: message numbers do not wrap around, counters start at zero, saves that reach the disk do so in the order they were begun, tokens are fresh, and restarts are careful, which `CommsCrash.CrashExact` shows to be the exact condition.
- CommsRuns.StepKeeps: careful restarts, likewise.
- CommsRuns.RunKeeps: careful restarts, likewise.
- CommsRuns.CatchesUp: careful restarts, likewise.
- CommsSafety.CrashKeeps: careful restarts, likewise.
- CommsObjects.CommsCtxt.AppendTo: queues are sequence fields; the linking of nodes is left out.
- CommsObjects.CommsCtxt.AddToQueue: the same.
- CommsObjects.CommsCtxt.TrimQueue: the linked queues and records are sequence fields and not linked nodes, so sharing of nodes is not modelled.
- PatExact.FilterComplete: NoRestart is sufficient for every pattern and exact for those of LastExact; for other patterns PairLoses and RestartLoses give families of lost words but no condition that is both.
- PatExact.FilterExact: under NoRestart, likewise.
- DictWords.ListsMatching: under NoRestart, likewise.
- DictIters.DictIter.PatHasMatch: a match set is a set of any size and there may be any number of patterns; the source keeps 32 bits to a set and at most four patterns.
- Compiling a pattern string, sets marked '^' and groups in parentheses.
- DictNth.FindStartsWithTiles: the prefix is one that some path spells, as every prefix in the index is; past a leaf the source would follow a null edge.
- DictNth.FindWordStartsWith: the prefix is one that some word has, as every prefix in the index is.
- DictIters.DictIter.FirstWord: when the edge found against the old stack comes with bit sets other than those of a first tile, the stack it leaves is none of the list's, and what follows from it is not described.
- DictIters.DictIter.DiFirstWord: the same.
- DictNth.GetNthWord: the same, and only when it would start over from the first end.
- DictIters.DictIter.LastWord: some top edge passes the patterns; otherwise the source reads below its stack.
- DictIters.DictIter.DiLastWord: the same.
- DictIters.DictIter.PushLastEdges: every link leads to the start of a run, as for PrevWord.
- DictIters.DictIter.StepBack: the same.
- DictIters.DictIter.DiPrevWord: the same.
- DictNth.WalkTo: the same.
- DictNth.NearerEnd: the same.
- DictIters.DictIter.PrevWord: needs every link to lead to the start of a run, which checkSanity does not test.
- Counts of words and positions are unbounded; the source keeps them in 32 bits.
- MemStreams.MemStream.PutBytes: sizes are unbounded where the source keeps 16 bits, the buffer is a sequence field and not a block that is grown, and closing and reference counts are left out.
- MemStreams.MemStream.GetU32VL: for a stream that holds such a number; the source asserts it.
- MoveStacks.StackCtxt.LoadFromStream: of images that a stack has written; malformed ones, and those of a stack that was saved after having been emptied, are left out.
- StackCopies.CopyStack: for stacks with pauses, which only duplicate games have, it is not stated when the misread copy stands for the same entries by chance.
- MoveStacks.ReadEntry: scores of 0x8000 and more are shut out, and entries have their move number from their place on the stack.
- Starting a stack over after it has been read from.
- Framing.ParseHeader: for packets that makeElemWithID has made; malformed packets, invitations, older protocols and message topics are left out.
- Framing.ParseSmall: the same.
- Framing.ParseBeef: the same.
- Framing.MakeMessages: the body from the count on; the device header and topics are left out, and lengths are unbounded where the source keeps 16 bits.
- Framing.DispatchMsgs: for transmissions that dvc_makeMQTTMessages has made; packets may be longer than the 16 bits of the source's byte counts allow.
- DLists.Map: the callback that disposes of removed nodes is left out.
- DLists.Sort: values are integers behind an arbitrary comparison, and the callbacks do not change the list.
- TileText.SpellingsExact: the length given is that of the string.
- TileText.TilesToString: with a delimiter the buffer must be large enough, for the source goes on with a null pointer when the delimiter does not fit; a face is a string, so the encoding of special faces is left out.
- BoardGeometry.ScrollData.FigureScale: sizes are unbounded, and zooming out to a level that fits, the tray and marking cells for redrawing are left out.
- BoardGeometry.ScrollData.FigureRows: asks that one row fits, for the source divides by the number of rows in sight.
- BufQueues.BufQueue.Add: the length is stored low byte first, where the source uses the machine's own order.
- Drawing, pen and key handling, logging and debug helpers.
