# irc-inspired chat: a verified model

This project models the chat server, its wire protocol and three algorithms of the logger compiled into it, and
proves what they promise. `dafny verify dfyconfig.toml` checks everything.

**The server's shared objects** (`ChatServer.dfy`). Users, channels, the user manager and the server are classes
with the fields the program updates in place. Who is in which channel is kept in three of them: every channel's
users, every user's channels, and the server's map of channels, from which a channel removes itself when its last
member leaves. Names live in a fourth place, the manager's connections. One invariant, `Valid`, ties all of them to
one abstract state: a history of events (`ChatSpec.dfy`), from which one membership relation and every user's inbox
are computed, and the timer and queue of every user (`Handlers.dfy`). Every handler is proved to take exactly one
step of the abstract server, to move exactly the timers and queues it is meant to, and to keep `Valid`; `IoLoop.dfy`
runs handlers of any users in any order, one at a time, as the single io thread does. Sets are ordered by pointer in
the program, so every walk over one is an arbitrary enumeration here.

**Theorems over all runs** (`ChatHistory.dfy`, `ChatRuns.dfy`, `ChatEffects.dfy`, `HandlerRuns.dfy`) are about the abstract server: name
safety, routing, group delivery in one order and for exactly the time of a stay, what leaving, stopping and renaming
change, what every input does by its literal text, the ping law and the queue law of every user. Because of the refinement they hold of the objects. A stopped
user keeps its socket and may keep acting, as in the program, so membership is not limited to connected users; only
connected users' names are promised to be distinct.

**Write queues and framing** (`WriteQueue.dfy`, `Framing.dfy`, `ClientStream.dfy`, `Sessions.dfy`,
`SharedBuffers.dfy`). One queue machine specifies the server's users and the client. The client's frames are laid out
in two static strings that an outstanding write goes on reading; that they are never rewritten under such a write is
what the byte-level theorem rests on. The reader of frames may receive the bytes in any chunks. `Sessions.dfy` puts a
client, its reader and the server together: what the client posts is what the server handles. The server's users share
the two static strings, so a frame of one may be overwritten by another's while it is written; `SharedBuffers.dfy`
shows such an interleaving and proves exactly when a user's wire is right.

**The ping timer** (`PingTimer.dfy`): deadlines, retries and when a silent user is given up. Deadlines count from the
construction of the user object, which waits for its connection, so the acceptance time enters: a user accepted 75
seconds or more after that is given up at once, whatever it sends.

**The logger** (`LoggerConfig.dfy`, `WildCard.dfy`, `HitCounter.dfy`): the sparse per-level index against the plain
registry over a logger's whole life, the glob matcher against the declarative meaning of a pattern, and the wrapping
every-n counter against plain counting. Three exact conditions were found here: the sparse index agrees with a registry if
and only if Global has no entry of the type or the first entry of the type says the same as Global's (a registry
filled from the defaults ensures it, other orders of writes do not); copying a registry reproduces it if and only if
no entry stands before Global's of its type with another value; and the counter is exact if and only if the rate does
not exceed 100000.

Where the documentation and the code disagree the model follows the code: the documentation limits names to 20
characters, but `valid_id` does not check this.

## Model

| member | source | states |
|---|---|---|
| Messages.NewMessage | common/source/chat_message.cpp:16-26 | every text of a constructed message is the longest prefix of what was passed of at most 20, 20 and 512 characters |
| Messages.StatusMessage | server/source/chat_server.cpp:215-218 | what the server says is a status message from "server", its target cut to 20 characters and its text to 512 |
| Messages.Split | server/source/chat_server.cpp:226-229 | splitting always yields a first token, so the empty-tokens branch never runs |
| Messages.TokensHoldNoSeparator | server/source/chat_server.cpp:226 | no token of a command line holds a blank or a tab, and so both separate |
| Messages.SplitRejoins | server/source/chat_server.cpp:226 | splitting loses nothing: one more token than separators, and putting the separators back gives the text |
| Messages.FirstToken | server/source/chat_server.cpp:226-232 | a word in front of a blank or tab, or alone, is the first token, and the rest is split the same way |
| Messages.FirstWord | server/source/chat_server.cpp:226-232 | every text is a word without blank or tab and what follows it, so the theorems on commands cover every command message |
| Messages.ArgumentOf | server/source/chat_server.cpp:234-288 | /join and /j join, /leave leaves and /nick renames to the word behind a blank or tab, whatever follows |
| Messages.NoArgument | server/source/chat_server.cpp:235-238 | each of the four words alone lacks its argument |
| Messages.OtherWord | server/source/chat_server.cpp:290-291 | any other first word is no command |
| ChatHistory.InboxIsSubsequence | server/source/chat_channel.cpp:20-25 | a user's inbox is the history read at strictly increasing positions, exactly those that reach it |
| ChatHistory.DeliveriesAreExact | server/source/chat_channel.cpp:20-25 | a position is delivered to a user if and only if its event reaches the user at that moment |
| ChatHistory.SameRelativeOrder | server/source/chat_channel.cpp:20-25 | any two users get the messages they both get in the same relative order |
| ChatHistory.MembershipInterval | server/source/chat_channel.cpp:41-63 | membership read off the history: joined at some point and not left since |
| ChatHistory.DeliveryInterval | server/source/chat_channel.cpp:20-63 | a channel's publish reaches a user if and only if it falls in one of the user's stays, its own joined and left notices included |
| ChatHistory.StayIsHeardWhole | server/source/chat_channel.cpp:41-63 | a user that leaves was sent every publish of the channel since its own joined notice, up to its own left notice |
| ChatHistory.SilenceBetweenStays | server/source/chat_channel.cpp:41-63 | after its left notice, the next publish of the channel that reaches a user is its own joined notice |
| ChatHistory.LeaveMembers | server/source/chat_user.cpp:202-213 | a block of leaves, in any order, removes exactly its pairs from the relation |
| ChatHistory.UnknownIsUntouched | server/source/chat_server.cpp:40-46 | a user not constructed yet is in no channel and was sent nothing |
| ChatRuns.AcceptStepKeepsSafe | server/source/chat_server.cpp:65-84 | accepting a nickname keeps the combined invariant, whether the name is valid or not |
| ChatRuns.HandleStepKeepsSafe | server/source/chat_server.cpp:192-292 | every message and command of any user keeps the combined invariant |
| ChatRuns.RenameKeepsSafe | server/source/chat_user.cpp:163-178 | a rename to a valid name keeps names distinct and apart from channels |
| ChatRuns.LeaveKeepsSafe | server/source/chat_user.cpp:202-213 | leaving keeps the combined invariant, with any fewer connections |
| ChatRuns.StepKeepsSafe | server/source/server.cpp:36 | every handler keeps the combined invariant |
| ChatRuns.RunIsSafe | server/source/server.cpp:36 | in every state of every run: connected names are well-formed, pairwise distinct and no channel's, channel ids are well-formed, and only members have left; history only grows |
| ChatRuns.LookupIsUnique | server/source/chat_user_manager.cpp:29-43 | in every state of every run of the abstract server, two connected users found under one name are the same user, whatever the iteration order, and the name is no registered channel's |
| ChatRuns.RoutingHasOneOutcome | server/source/chat_server.cpp:192-220 | every non-command message has exactly one outcome: one copy to each member of the sender's channel, or one to the one user of that name, or one error to the sender; all other inboxes and all memberships stay |
| ChatRuns.OutsiderReachesNobody | server/source/chat_server.cpp:198-219 | a message to a channel by someone not in it reaches the sender alone, as an error |
| ChatRuns.LeavingIsExact | server/source/chat_user.cpp:202-213 | stop and timeout empty the user's memberships, keep all others, and unregister exactly the channels it was alone in |
| ChatRuns.StopAllIsExact | server/source/chat_user_manager.cpp:22-27 | stop_all takes every connected user out of every channel and leaves registered exactly the channels with a member outside the connections; none when all members were connected |
| ChatRuns.RenameInbox | server/source/chat_user.cpp:167-172 | the rename notices add to each inbox one message for each channel shared with the renamed user |
| ChatRuns.RenameInboxContent | server/source/chat_user.cpp:167-172 | the added messages are exactly one for each shared channel, in some order: that the old name is now known as the new |
| ChatRuns.OverlapIsAudience | server/source/chat_channel.cpp:20-25 | counting shared channels user by user and counting members channel by channel give the same total |
| ChatRuns.RenameConserves | server/source/chat_server.cpp:272-288 | "/nick n" with a valid n renames the sender and changes no membership or connection; every user gets exactly one "old is now known as new." for each channel shared with it, and the total is the sum of these channels' sizes |
| ChatEffects.JoinEffect | server/source/chat_server.cpp:234-251 | "/join c" or "/j c": a registered channel or a valid id gets the sender as a member, and it and every old member are sent one "name joined #c."; anything else changes nothing |
| ChatEffects.LeaveEffect | server/source/chat_server.cpp:253-270 | "/leave c" by a member: exactly this pair goes, and every old member is sent one "name left #c."; by anybody else it changes nothing |
| ChatEffects.RefusedNickEffect | server/source/chat_server.cpp:280-285 | "/nick n" with an invalid n sends the sender "Name is not valid." and changes nothing |
| ChatEffects.NoArgumentEffect | server/source/chat_server.cpp:235-238 | one of the four words alone sends the sender "Arguments empty." and changes nothing |
| ChatEffects.OtherWordEffect | server/source/chat_server.cpp:290-291 | any other first word sends the sender " unknown command." and changes nothing |
| ChatEffects.TextEffect | server/source/chat_server.cpp:198-219 | every other message, case by case: one text to each member of the sender's channel, or to the connected user of that name, or one error to the sender |
| ChatEffects.AcceptEffect | server/source/chat_server.cpp:65-84 | a valid nickname is connected and sent "valid" and "ping"; any other gets a blank name and one refusal; nobody else is sent anything |
| ChatEffects.PingEffect | server/source/chat_user.cpp:131-134 | an expiry that does not give up sends its user one status message "ping" from "server" and nothing else |
| ChatEffects.StopEffect | server/source/chat_user.cpp:202-213 | a stopped or timed out user: everybody gets exactly one "name left #c." for each channel shared with it |
| ChatEffects.StopAllEffect | server/source/chat_user_manager.cpp:22-27 | stop_all sends nothing but "name left #c." for connected users and channels of the receiver |
| ChatEffects.InternalEffect | server/source/chat_user.cpp:111-122 | queue handlers change no membership, name, connection or inbox |
| ChatEffects.ValidIdIs | server/source/chat_server.cpp:177-190 | a valid id, spelled out in characters, connected names and memberships |
| ChatEffects.NamesOfEveryRun | server/source/chat_server.cpp:177-190 | in every state of every run connected names and channel names have at least three ASCII letters and digits, a letter first; connected names are distinct and no channel's |
| ChatServer.ChatUser.constructor | server/source/chat_user.cpp:15-22 | a new user has a blank name, no channel, an empty queue and a deadline 30 seconds after its construction |
| ChatServer.ChatUser.Write | server/source/chat_user.cpp:51-59 | a write posts exactly one handler and changes nothing else |
| ChatServer.ChatUser.LeaveAllChannels | server/source/chat_user.cpp:202-213 | walking a snapshot while each leave shrinks the live set: the user is left in no channel, one left notice per channel was published, exactly the channels it was alone in are gone from the map, and nobody else was removed from any |
| ChatServer.ChatUser.LeaveOne | server/source/chat_user.cpp:208-209 | one round of the walk leaves exactly one more pair behind, with its notice, and at most this channel goes from the map |
| ChatServer.ChatUser.SetName | server/source/chat_user.cpp:163-178 | a name of more than two characters is announced once in each of the user's channels and then taken; a shorter one changes nothing |
| ChatServer.ChatUser.AnnounceName | server/source/chat_user.cpp:167-172 | each of the user's channels is told exactly once, in some order, under the old name, and nobody moves |
| ChatServer.ChatUser.Start | server/source/chat_user.cpp:34-37 | a started user was sent one ping and its wait is outstanding; no other timer or queue moves |
| ChatServer.ChatUser.Ping | server/source/chat_user.cpp:131-138 | one ping is queued for the user and its wait is outstanding; no other timer or queue moves |
| ChatServer.ChatUser.PingExpired | server/source/chat_user.cpp:138-160 | the timer moves as the ping machine says, and the expiry is one abstract step: another ping, or leaving all channels and closing the socket |
| ChatServer.ChatUser.PingExpiredAgain | server/source/chat_user.cpp:140-152 | an expiry that does not give up sends exactly one ping and moves the deadline by 30 or 15 seconds |
| ChatServer.ChatUser.NextDeadline | server/source/chat_user.cpp:140-147 | retries, flag and deadline move as the expiry says, and nothing else does |
| ChatServer.ChatUser.SetArmed | server/source/chat_user.cpp:41 | beginning or ending the wait moves nothing but whether it is outstanding |
| ChatServer.ChatUser.PingTimeout | server/source/chat_user.cpp:153-158 | the expiry that gives up leaves the user in no channel, its socket closed and no wait outstanding, as one abstract step |
| ChatServer.ChatUser.Stop | server/source/chat_user.cpp:39-42 | the user leaves all its channels with one notice each and keeps its socket; its wait is cancelled unless the expiry was already queued, and nothing else of any timer or queue moves |
| ChatServer.ChatUser.RunPostedWrite | server/source/chat_user.cpp:52-58 | the posted handler takes one step of the write queue machine and keeps the invariant |
| ChatServer.ChatUser.WriteCompleted | server/source/chat_user.cpp:118-122 | a completion takes one step of the write queue machine and keeps the invariant |
| ChatServer.ChatUser.WriteFailed | server/source/chat_user.cpp:124-127 | a failed write keeps the queue, marks it failed, and stops the user as one abstract step |
| ChatServer.ChatUser.ReadBody | server/source/chat_user.cpp:92-103 | an undecodable body changes nothing; a status message "pong" sets this user's flag and nothing else; every other message is one abstract step and moves no timer |
| ChatServer.ChatUser.ReceivePong | server/source/chat_user.cpp:95-97 | a pong sets the user's flag and nothing else |
| ChatServer.ChatUser.RunPostedClose | server/source/chat_server.cpp:83 | the posted handler closes the socket of a rejected connection and changes nothing else |
| ChatServer.ChatChannel.Publish | server/source/chat_channel.cpp:20-25 | one copy is queued for every member, at the end, and nobody else's queue changes |
| ChatServer.ChatChannel.Link | server/source/chat_channel.cpp:44-48 | both sides are inserted and the members, the new one included, are written one copy; nobody else's channels, name, timer or queue changes |
| ChatServer.ChatChannel.Unlink | server/source/chat_channel.cpp:54-58 | the members, the leaving one included, are written one copy and both sides are erased; nobody else's channels, name, timer or queue changes |
| ChatServer.ChatChannel.Join | server/source/chat_channel.cpp:41-49 | a join of an old or a just created channel restores the invariant and adds exactly one joined event |
| ChatServer.ChatChannel.Leave | server/source/chat_channel.cpp:51-63 | a leave keeps the invariant, adds exactly one left event, and removes from the map this channel and no other, exactly when it is empty |
| ChatServer.ChatUserManager.User | server/source/chat_user_manager.cpp:29-35 | some connected user of the name, or none exists |
| ChatServer.ChatUserManager.UserExists | server/source/chat_user_manager.cpp:37-43 | true if and only if a connected user has the name |
| ChatServer.ChatUserManager.Start | server/source/chat_user_manager.cpp:9-13 | connects exactly this user and pings it, keeping the invariant |
| ChatServer.ChatUserManager.Stop | server/source/chat_user_manager.cpp:15-20 | disconnects exactly this user after it left all its channels, as one abstract step |
| ChatServer.ChatUserManager.StopAll | server/source/chat_user_manager.cpp:22-27 | empties the connections after all of them left their channels, as one abstract step; exactly the connected users' waits are cancelled |
| ChatServer.ChatUserManager.StopEach | server/source/chat_user_manager.cpp:23-24 | walking the connections in any order, exactly the connected users' pairs are left, one notice each, and exactly their waits are cancelled |
| ChatServer.ChatUserManager.StopNext | server/source/chat_user_manager.cpp:23-24 | one round of the loop leaves exactly this user's pairs and cancels exactly its wait |
| ChatServer.ChatServer.constructor | server/source/chat_server.cpp:17-21 | a new server satisfies the invariant and starts in the abstract start state |
| ChatServer.ChatServer.JoinedPairs | server/source/chat_channel.cpp:44-46 | a user's channels are exactly the registered channels of its pairs in the relation, and no registered channel is empty |
| ChatServer.ChatServer.OnlySoleChannelsGone | server/source/chat_channel.cpp:60-62 | if a user lost all its channels and nobody else any, exactly the channels it was alone in are gone |
| ChatServer.ChatServer.MirrorAfterJoin | server/source/chat_channel.cpp:44-46 | adding the user to the channel and the channel to the user is adding one pair to the relation |
| ChatServer.ChatServer.MirrorAfterLeave | server/source/chat_channel.cpp:56-62 | removing both sides, and an emptied channel from the map, is removing one pair from the relation |
| ChatServer.ChatServer.RegistryAfterLeave | server/source/chat_channel.cpp:60-62 | removal by name keeps the map equal to the channels that have members |
| ChatServer.ChatServer.RegisteredWithout | server/source/chat_channel.cpp:60-62 | taking a pair out of the relation unregisters its channel if and only if nobody else is in it |
| ChatServer.ChatServer.MailAfter | server/source/chat_channel.cpp:23-24 | if exactly the users an event reaches were written its message, all queues match all inboxes again |
| ChatServer.ChatServer.CreateChannel | server/source/chat_server.cpp:100-122 | a new channel is registered under its own name, unless the id is empty or taken; then nothing changes |
| ChatServer.ChatServer.RemoveChannel | server/source/chat_server.cpp:124-130 | removes the channel's name; null is refused |
| ChatServer.ChatServer.RemoveChannelNamed | server/source/chat_server.cpp:132-149 | removes exactly this name; answers false only for a non-empty name that is not registered |
| ChatServer.ChatServer.ValidId | server/source/chat_server.cpp:177-190 | true if and only if the id has at least three characters, the first an ASCII letter, all ASCII letters or digits, and neither a connected user nor a registered channel has it |
| ChatServer.ChatServer.HandleMessage | server/source/chat_server.cpp:192-220 | handling any message of any user is one abstract step and keeps the invariant |
| ChatServer.ChatServer.DoCommand | server/source/chat_server.cpp:222-292 | every command line, well-formed or not, is one abstract step and keeps the invariant |
| ChatServer.ChatServer.JoinCommandStep | server/source/chat_server.cpp:240-250 | /join enters the registered channel, or a new one under a valid id; otherwise nothing happens and nobody is told |
| ChatServer.ChatServer.JoinNew | server/source/chat_server.cpp:245-248 | a valid id becomes a registered channel with the user as its first member, told once |
| ChatServer.ChatServer.LeaveCommandStep | server/source/chat_server.cpp:259-269 | /leave leaves the channel if the user is in it; otherwise nothing happens |
| ChatServer.ChatServer.NickCommandStep | server/source/chat_server.cpp:278-287 | /nick renames to a valid name; otherwise the user is told it is not valid |
| ChatServer.ChatServer.TellStep | server/source/chat_server.cpp:235-238 | a refused command is answered to its sender alone |
| ChatServer.ChatServer.AcceptNick | server/source/chat_server.cpp:64-84 | a new connection is one abstract step: connected under its nickname and pinged, or told it is not valid and its closing posted |
| ChatServer.ChatServer.Admit | server/source/chat_server.cpp:67-75 | check and registration of a nickname happen in one handler, so the name is still free when it is connected |
| ChatServer.ChatServer.TakeFirstName | server/source/chat_server.cpp:69 | a user in no channel takes its nickname without telling anybody |
| ChatServer.ChatServer.Reject | server/source/chat_server.cpp:76-84 | under an invalid nickname the user is told so, its closing is posted, and it is not connected, as one abstract step |
| ChatServer.ChatServer.StopServer | server/source/chat_server.cpp:30-34 | stopping the server disconnects everybody, as one abstract step |
| ChatServer.ChatServer.NamesAreSafe | server/source/chat_server.cpp:177-190 | connected users of the same name are the same object; connected names and channel names have at least three ASCII letters and digits, a letter first, and are disjoint |
| ChatServer.ChatServer.MembershipIsOneRelation | server/source/chat_channel.cpp:41-63 | for any two users and channels: a channel is among a user's channels if and only if it is registered under its own name and has the user; channels with members never share a name; registered channels have members |
| ChatServer.ChatServer.SentIsPrefixOfInbox | server/source/chat_user.cpp:51-59 | what went out to a user is at all times the beginning of its inbox, and all of it once the queue is empty |
| IoLoop.RunOne | server/source/server.cpp:36 | every handler, outstanding or not, is the one abstract step it is meant to be, moves every user's timer and queue exactly as the machines say, and keeps the invariant |
| IoLoop.RunForUser | server/source/chat_user.cpp:61-161 | every handler of one user is the step its message, timer and queue call for; of all timers and queues it moves only this user's |
| IoLoop.OnNickRead | server/source/chat_server.cpp:64-84 | a nickname adds one user and its timer, started if and only if the nickname is valid, and moves no other |
| IoLoop.OnShutdown | server/source/chat_user_manager.cpp:22-27 | stop_all is one step and cancels exactly the connected users' waits |
| IoLoop.OnBodyRead | server/source/chat_user.cpp:92-103 | a body moves the sender's timer if it is a pong, else no device, and is the step of its message |
| IoLoop.OnReadFailed | server/source/chat_user.cpp:79-82 | a failed read stops the user and cancels its wait, nothing else |
| IoLoop.OnPingDue | server/source/chat_user.cpp:138-160 | a due ping is an expiry of this user's timer alone, or nothing if no wait is outstanding |
| IoLoop.OnPostedWrite | server/source/chat_user.cpp:52-58 | a posted write takes this user's queue one step on, and no other |
| IoLoop.OnWriteDone | server/source/chat_user.cpp:118-122 | a completion takes this user's queue one step on, and no other |
| IoLoop.OnWriteError | server/source/chat_user.cpp:124-127 | a failed write marks this user's queue failed, stops the user and cancels its wait |
| IoLoop.OnPostedClose | server/source/chat_server.cpp:83 | a posted close changes nothing but the socket |
| IoLoop.DeviceHoldsQueue | server/source/chat_user.cpp:51-59 | a user's queue is what its inbox holds beyond what was taken from it |
| IoLoop.RunHandlers | server/source/server.cpp:36 | refinement: running any handlers in any order on a new server is a run in which each takes exactly its step and moves exactly its devices, ending in the state and devices the objects mirror |
| IoLoop.ObjectsFollowRun | server/source/chat_user.cpp:131-161 | after any run every user object's timer is its first timer moved by exactly its own ticks since its birth, and its queue is the last state of its queue's run |
| Handlers.OwnDeviceMoves | server/source/server.cpp:36 | a handler of one user moves no other user's timer or queue |
| Handlers.ShutdownMoves | server/source/chat_user_manager.cpp:22-27 | stop_all cancels exactly the connected users' waits |
| Handlers.WriteErrorMoves | server/source/chat_user.cpp:124-127 | a failed outstanding write fails the queue and stops the user; without an outstanding write nothing happens |
| Handlers.BodyReadMoves | server/source/chat_user.cpp:92-103 | a decoded status message "pong" sets its user's flag and is no step; any other decoded message is a step and moves nothing |
| Handlers.ReadFailedMoves | server/source/chat_user.cpp:79-82 | a failed read stops the user and ends its wait unless its expiry is queued |
| Handlers.PingDueMoves | server/source/chat_user.cpp:138-160 | a due ping is a timeout, another ping or nothing, and moves this timer alone |
| Handlers.PostedWriteMoves | server/source/chat_user.cpp:52-58 | the next unqueued message of the inbox is queued, and a write starts if the queue was empty |
| Handlers.WriteDoneMoves | server/source/chat_user.cpp:118-122 | the front of the queue becomes sent, and the next write starts if anything is left |
| Handlers.NickReadMoves | server/source/chat_server.cpp:64-84 | a nickname adds one timer due 30 seconds after the construction, waiting if and only if the nickname is valid |
| Handlers.ShutdownSpelled | server/source/chat_user_manager.cpp:22-27 | exactly the connected users whose expiry is not queued stop waiting |
| HandlerRuns.HandlersTakeSteps | server/source/server.cpp:36 | every run of handlers is a run of the abstract server, so its states are all safe and the theorems about runs hold of it |
| HandlerRuns.EveryUserIsBorn | server/source/chat_server.cpp:64-84 | every user was constructed by some nickname handler of the run |
| HandlerRuns.TimerIsTicked | server/source/chat_user.cpp:131-161 | in every run every user's timer has moved by exactly its own pongs, expiries and cancellations since its birth, whatever else ran in between |
| HandlerRuns.TimesOutByTicks | server/source/chat_user.cpp:153-158 | a user timed out in a run if and only if one of its expiries gave it up |
| HandlerRuns.PingLaw | server/source/chat_user.cpp:131-161 | for every accepted user at every moment of every run: deadline = R + 30 + 15 retries with at most three retries, and it has timed out if and only if four consecutive windows were silent |
| HandlerRuns.AnsweringKeepsAlive | server/source/chat_user.cpp:95-97 | in every run an accepted user that sends a status message "pong" before its first expiry and between any two never times out |
| HandlerRuns.TimeoutLaw | server/source/chat_user.cpp:153-158 | the expiry that times a user out was due at R + 75 and leaves it in no channel |
| HandlerRuns.TimeoutTime | server/include/chat_user.h:56-57 | a timeout of any run comes 75 to 105 seconds after the last pong an expiry saw; without any, 75 seconds after the construction or at the acceptance, whichever is later |
| HandlerRuns.NeverTimedAgain | server/source/chat_user.cpp:39-42 | a user that was rejected, timed out, or stopped before its expiry was queued is never pinged nor timed out again |
| HandlerRuns.QueueMoves | server/source/chat_user.cpp:51-59 | one handler is at most one event of a user's queue followed by what the user is sent; the queue stays good and complete |
| HandlerRuns.QueueAfter | server/source/chat_user.cpp:111-129 | a handler moves a user's queue by its own event or not at all |
| HandlerRuns.QueueGoesThroughRun | server/source/chat_user.cpp:111-129 | in every run every user's queue goes, handler by handler, through one run of the queue machine |
| HandlerRuns.QueueLaw | server/source/chat_user.cpp:111-129 | for every user of every run: what was sent is the beginning of its inbox and stays sent, one write is outstanding if and only if the queue is non-empty and none has failed, and after a failed write nothing is started or sent again |
| WriteQueue.NextKeepsGood | server/source/chat_user.cpp:51-59 | every event keeps: a write is outstanding if and only if the queue is non-empty and no write failed; nothing is lost or reordered |
| WriteQueue.RunIsFaithful | server/source/chat_user.cpp:111-129 | in every run, sent, waiting and posted messages are together exactly the written ones, in order |
| WriteQueue.FailureIsFinal | server/source/chat_user.cpp:124-127 | after a failed write no write is ever outstanding again and nothing more is sent |
| WriteQueue.DrainsWithoutErrors | client/source/chat_client.cpp:138-154 | without errors something can always happen until all is sent, and each such event shrinks the backlog |
| PingTimer.DeadlineFormula | server/source/chat_user.cpp:140-158 | the deadline is the reference time plus 30 plus 15 per retry, retries never exceed three, and a user is given up at the reference time plus 75 |
| PingTimer.ExpiryIs | server/source/chat_user.cpp:140-158 | an expiry adds 30 seconds after a pong, 15 for one of three retries, or gives up |
| PingTimer.RetriesCountSilence | server/source/chat_user.cpp:145-147 | the retry counter is the number of silent windows at the end |
| PingTimer.GivenUpIff | server/source/chat_user.cpp:145-158 | a user is given up if and only if four consecutive windows were silent |
| PingTimer.TimeoutBound | server/include/chat_user.h:56-57 | when a user is given up: 75 to 105 seconds after the last pong an expiry saw; without any, 75 seconds after its construction or at its acceptance, whichever is later |
| PingTimer.PongIsRecent | server/source/chat_user.cpp:140-144 | the last pong an expiry saw came after the acceptance and at most 30 seconds before the reference time |
| PingTimer.LateIsSilent | server/source/chat_user.cpp:15-22 | a user accepted 75 seconds or more after its construction is never heard: all four expiries are already due |
| PingTimer.HeardIff | server/source/chat_server.cpp:38-51 | exact condition: a pong can still be heard if and only if the user is accepted within 75 seconds of its construction |
| PingTimer.GivenUpByTicks | server/source/chat_user.cpp:138-160 | of any pongs, expiries and cancellations, some expiry gives the user up if and only if four consecutive windows were silent |
| PingTimer.GivenUpWhen | server/source/chat_user.cpp:153-158 | the expiry that gives up is the one due 75 seconds after the reference time |
| PingTimer.TicksAreWindows | server/source/chat_user.cpp:95-97 | moving the timer by pongs, expiries and cancellations as they come gives the timer after the windows these make up, armed unless given up or cancelled |
| Framing.HeaderFits | common/source/chat_message.cpp:76-79 | a header has ten columns if and only if the size is below 16 to the power of 10 |
| Framing.HeaderRoundTrip | server/source/chat_user.cpp:70-73 | the reader's parser inverts the writer's header for every size |
| Framing.HeaderColumn | common/source/chat_message.cpp:74-79 | each of the ten columns: the size in lower-case hexadecimal, right-aligned, filled with blanks |
| Framing.FrameIs | common/source/chat_message.cpp:72-84 | a frame is the ten columns and the payload, or nothing from 16 to the power of 10 on |
| Framing.ReadHeaderHasDigit | server/source/chat_user.cpp:70-74 | a header that is read has a hexadecimal digit behind nothing but white space |
| Framing.HeaderWithDigitIsRead | server/source/chat_user.cpp:70-74 | every header that has one is read |
| Framing.BadHeaderIsRead | server/source/chat_user.cpp:73-78 | a header that cannot be read is followed by an empty body |
| Framing.ReadHex | server/source/chat_user.cpp:73 | reading the hexadecimal form of a number gives the number back, whatever follows |
| Framing.ChunkingIsInvisible | server/source/chat_user.cpp:61-109 | reading before or after more bytes arrive gives the same reader |
| Framing.PrefixReadsPrefix | client/source/chat_client.cpp:92-136 | the beginning of a stream is read as the beginning of what the whole is read as |
| Framing.FrameIsOneBody | common/source/chat_message.cpp:72-84 | one whole frame is read as exactly its payload, with the reader back at a header |
| Framing.PartOfFrameIsNoBody | server/source/chat_user.cpp:65-66 | an incomplete frame is not read at all |
| Framing.StreamDecodes | server/source/chat_user.cpp:61-109 | any frames with any part of one more behind them are read as their payloads, the last one only when whole |
| Framing.FramesDecode | server/source/chat_user.cpp:61-109 | any list of payloads is read back as those that fit a frame, ending at a frame boundary |
| Framing.FramesRoundTrip | common/source/chat_message.cpp:72-84 | payloads that all fit are read back exactly |
| Framing.ResynchronisesAfterBadBodies | server/source/chat_user.cpp:93-103 | whichever payloads are undecodable, the messages handled are exactly the decodable ones, in order |
| Framing.MessagesRoundTrip | common/source/chat_message.cpp:103-124 | with a serialization that decoding inverts, the messages handled are the messages framed |
| Framing.FrameReader.Receive | server/source/chat_user.cpp:61-109 | a chunk of any size leaves the reader where the whole stream received so far takes it |
| Framing.FrameReader.ReadHeader | server/source/chat_user.cpp:70-78 | the header handler is one step of the reader; a bad header is followed by an empty body |
| Framing.FrameReader.ReadMessage | server/source/chat_user.cpp:92-103 | the body handler is one step of the reader |
| ClientStream.ChatClient.Write | client/source/chat_client.cpp:30-38 | a write is one step of the queue machine |
| ClientStream.ChatClient.RunPostedWrite | client/source/chat_client.cpp:31-37 | the posted handler is one step of the queue machine, and no byte reaches the wire by it |
| ClientStream.ChatClient.DoWrite | client/source/chat_client.cpp:138-140 | with no write outstanding, the static strings hold exactly the front message's frame afterwards |
| ClientStream.ChatClient.GenerateBuffers | common/source/chat_message.cpp:65-90 | a message not cached is laid out as its frame, or not at all if too long; a cached one keeps its old buffers and leaves the static strings alone |
| ClientStream.ChatClient.Transmit | client/source/chat_client.cpp:138-140 | bytes read from the static strings while the write progresses are the next bytes of the front message's frame |
| ClientStream.ChatClient.WriteCompleted | client/source/chat_client.cpp:143-147 | the next write starts only after the previous frame is whole on the wire |
| ClientStream.ChatClient.WriteFailed | client/source/chat_client.cpp:149-152 | a failed write leaves its message at the front, nothing is written again, and closing the socket is posted |
| ClientStream.ChatClient.RunPostedClose | client/source/chat_client.cpp:21-28 | the posted handler closes the socket and touches neither queue nor wire |
| ClientStream.ChatClient.ReaderSeesWhatWasPosted | server/source/chat_user.cpp:61-109 | whatever part of the wire a reader received, its bodies are the beginning of the posted payloads that fit, and all of them once everything is written and received |
| ClientStream.WireIsRead | client/source/chat_client.cpp:138-154 | a wire that carries the sent frames and a part of the front one is read as the beginning of the posted payloads |
| ClientStream.Converse | client/source/chat_client.cpp:30-38 | end to end: under any interleaving of posts, handlers, progress, completions, errors and arrivals, the server reads the beginning of what the client posted, and all of it once nothing is left |
| Sessions.ServeEvents | server/source/chat_user.cpp:69-108 | each new event of a user's reader runs one handler, a bad header the stop with its expiry queued or not, and these hand over exactly the decoded messages, pongs aside |
| Sessions.ServedOn | server/source/chat_user.cpp:92-103 | one more handler continues the run and hands over what its event means |
| Sessions.ServedIsPosted | server/source/chat_user.cpp:93-103 | what was handed over is the beginning of the posted messages, or all of them |
| Sessions.MeantOfPart | server/source/chat_user.cpp:93-103 | decoding the beginning of what was posted gives the beginning of the posted messages |
| Sessions.Session | client/source/chat_client.cpp:30-38 | end to end between the objects: with a decoding that inverts the encoding, under any interleaving of both programs and any chunking, the messages of the user that the server handles are the beginning of those its client posted, pongs aside, and all of them once nothing is left |
| SharedBuffers.FlightIsRightIff | common/source/chat_message.cpp:65-90 | exact condition for one write of a server user: its bytes are its frame under every schedule if and only if no layout of another user before its completion is harmful |
| SharedBuffers.OnlyHarmlessHolds | common/source/chat_message.cpp:72-81 | another layout leaves the frame readable only if it is of the same message, or too long for a header and continuing this one |
| SharedBuffers.SpoilingSchedule | server/source/chat_user.cpp:111-129 | any harmful layout spoils the write that takes its bytes right after it |
| SharedBuffers.WireIsRightIff | server/source/chat_user.cpp:111-129 | exact condition for a user's whole wire: it carries its frames under every schedule if and only if none of its writes is disturbed |
| SharedBuffers.OverwrittenFrame | common/source/chat_message.cpp:66-67 | an interleaving of two users in which one is sent the other's frame |
| LoggerConfig.Configurations.UnsafeSet | common/source/easylogging.cc:466-476 | one write: the entries it covers, all levels for Global, hold the value; all others keep theirs; entries stay unique and in place |
| LoggerConfig.Configurations.UnsafeSetGlobally | common/source/easylogging.cc:490-500 | exactly the entries of the type are written, Global's only if asked for |
| LoggerConfig.Configurations.Set | common/source/easylogging.cc:262-268 | one write, as unsafeSet, with a new entry coming first among the new ones; the second global round changes nothing more |
| LoggerConfig.Configurations.SetGlobally | common/source/easylogging.cc:478-488 | exactly the entries of the type are written; including Global it is one Global write |
| LoggerConfig.Configurations.SetToDefault | common/source/easylogging.cc:277-303 | on any registry: every level has exactly one entry of every type, the default; a type without entries gets Global's first, another keeps its first entry |
| LoggerConfig.DefaultsAre | common/source/easylogging.cc:277-303 | the default of every type and level, spelled out |
| LoggerConfig.LastWriteSnoc | common/source/easylogging.cc:466-476 | the last write of a type for a level or for Global decides |
| LoggerConfig.Configurations.SetFromBase | common/source/easylogging.cc:229-237 | on any registry: every entry holds the last value the base's entries write to it, a Global one counting for all levels; null and the registry itself change nothing |
| LoggerConfig.CopiedValue | common/source/easylogging.cc:229-237 | copying a registry gives an entry its own value, or Global's if that comes later in the base |
| LoggerConfig.CopyIsExactIff | common/source/easylogging.cc:229-237 | exact condition: copying a registry into an empty one reproduces all its entries if and only if none stands before Global's of its type with another value |
| LoggerConfig.CopyOfComplete | common/source/easylogging.cc:1811 | a logger's empty registry filled from the default one is complete and holds the same values |
| LoggerConfig.WrittenDefaults | common/source/easylogging.cc:277-303 | the fourteen writes of setToDefault leave every default in place, whatever was there before |
| LoggerConfig.FirstLevelAfter | common/include/easylogging.h:1567-1569 | one write never changes which level comes first for a type that has entries |
| LoggerConfig.Logger.constructor | common/source/easylogging.cc:530-539 | a new logger's registry is what its base's entries write into an empty one, and its index is that registry's |
| LoggerConfig.Logger.Configure | common/source/easylogging.cc:566-584 | the base's entries are written over the logger's own and the index is rebuilt from the result; the logger's own registry as base only rebuilds |
| LoggerConfig.LoggerLife | common/source/easylogging.cc:566-584 | a logger constructed from the default registry and configured from any registries, in any order: for every level its index answers with the last value written for that level or globally, or else the default |
| LoggerConfig.NextLevel | common/source/easylogging.cc:87-95 | the doubling level index visits every level but Global exactly once |
| LoggerConfig.TypedConfigurations.Build | common/source/easylogging.cc:1593-1609 | the index is the one built from the registry's entries of the type, in order |
| LoggerConfig.TrueIsAWord | common/source/easylogging.cc:1595-1598 | a value that counts as true is TRUE, true or 1 with white space around it |
| LoggerConfig.WordIsTrue | common/source/easylogging.cc:1595-1598 | each of these counts as true |
| LoggerConfig.IndexFallsBack | common/include/easylogging.h:2054-2075 | Global is always indexed, with the last value Global was given, or the first value of any level before that |
| LoggerConfig.IndexStores | common/include/easylogging.h:2061-2074 | a level is indexed, with its own value, if and only if this differed from the fallback when it was added |
| LoggerConfig.IndexAgreesIff | common/include/easylogging.h:2054-2075 | exact condition: every level reads its own value back if and only if Global was never given or agrees with the first value |
| LoggerConfig.RegistryReadsBackIff | common/include/easylogging.h:2021-2036 | the same exact condition on a registry with unique entries |
| LoggerConfig.IndexAgreesWithRegistry | common/include/easylogging.h:2021-2036 | on a complete registry the sparse index with its fallback answers for every level what the registry holds |
| LoggerConfig.FirstLevelIsAnsweredGlobally | common/include/easylogging.h:2054-2060 | with Global registered, the level registered first is always answered with Global's value, whatever its own |
| LoggerConfig.MisorderedLogger | common/source/easylogging.cc:566-584 | a logger whose registry is cleared and gets Debug before the defaults answers that Debug is on while its registry says off |
| WildCard.MatchOne | common/source/easylogging.cc:785-800 | a pattern character other than a star takes exactly one character |
| WildCard.MatchStar | common/source/easylogging.cc:791-796 | a star takes nothing, or one character and then again whatever a star takes |
| WildCard.WildCardMatch | common/source/easylogging.cc:782-804 | terminates, and is true if and only if the string splits into one piece for each pattern character |
| HitCounting.CountKeepsRemainder | common/include/easylogging.h:2128-2133 | for a rate up to 100000 the stored count never exceeds 100000 and keeps the remainder of the true count |
| HitCounting.TooRareIsInexact | common/include/easylogging.h:2128-2133 | for a rate above 100000 some hit is answered wrongly |
| HitCounting.ExactIff | common/source/easylogging.cc:1764-1773 | exact condition: every hit is answered as if the count never wrapped if and only if the rate is at most 100000 |
| HitCounting.HitCounter.ValidateHitCounts | common/include/easylogging.h:2128-2133 | one more hit moves the stored count as the specification says |
| HitCounting.RegisteredHitCounters.Get | common/include/easylogging.h:1573-1580 | the one counter of the place with its count, or no counter has the place |
| HitCounting.RegisteredHitCounters.ValidateEveryN | common/source/easylogging.cc:1764-1773 | exactly this place's count moves, all other places keep theirs, and the answer is about the new count |
| HitCounting.LogEveryN | common/source/easylogging.cc:1764-1773 | any interleaving of hits at any places with any rates: every hit is answered by its own place's count alone, and for a rate up to 100000 it is logged exactly when it is a multiple of the rate |
| HitCounting.LogsWhenDue | common/source/easylogging.cc:1764-1773 | up to the limit the wrapped count answers as the number of hits would |

## Left out

- Sockets, the resolver, the acceptor's waiting, strands as library objects and the lifetimes kept by shared pointers: a handler is one atomic step, a post is a queue, a read takes exactly its bytes.
- An accepted connection whose nickname cannot be read: its socket is closed and no user of it is ever used.
- The text archive of a message: `MessagesRoundTrip` takes serialization and decoding as parameters with the round-trip law, and `ReadBody` gets the decoded message or none.
- SharedBuffers.FlightIsRightIff: the strings are read by their contents; in the program a new layout may also move their storage, so even an equal one can be harmful. The server's objects deliver messages, not bytes: which layouts fall into a write is the flight's `others`.
- The nickname buffer shared by concurrent handshakes: the nickname is an arbitrary string.
- Framing.FrameReader.ReadHeader: the reader and the rest of a user are two classes here and one object in the program, so a bad header is recorded as an event; `Sessions` runs the stop that belongs to it and then the empty body.
- Framing.ReadHex: a sign and the prefix 0x, which stream extraction would accept, are not modelled; the writer never produces them, and bytes are characters.
- ChatServer.ChatServer.StopServer: closing the acceptor is not modelled, so nicknames may still be read afterwards, as they can be in the program for connections already accepted; the console stops the server from its own thread, whose races with the io thread are not modelled: stop_all is one step.
- PingTimer.TimeoutBound: expiries are assumed to be handled as soon as they can be, at the deadline or at the acceptance, and pongs to arrive inside their windows; a late handler delays the timeout by as much. `PingLaw` and `TimeoutLaw` assume nothing of the kind.
- IoLoop.RunOne: any constructed user may act, also a rejected or stopped one, and clocks and already queued expiries are parameters; the program can do at most this.
- The client's console interface and its handling of received messages, which prints them or posts a pong like any other message.
- The lists behind /users and /channels, `chat_channel::leave_all` (never called), the setters of a message, log text.
- common/source/message.cpp and common/source/chat_session.cpp: not in the build.
- LoggerConfig.TypedConfigurations.Build: only the Enabled and ToStandardOutput indexes; ToFile can be forced off by a file that cannot be opened, a Format is assigned without its text, Filename opens files, subsecond precision and performance tracking are always stored under Global, the size limits would repeat the two modelled. The level and type named Unknown are not modelled, and entries are values where the program holds pointers to them.
- ChatServer.ChatUser.SetName: requires a longer name to be valid; the program's setter would take any, but both its callers ask `valid_id` first, and names are safe only because they do.
- ChatServer.ChatChannel.Leave: requires the user to be a member; the program would publish a notice for anybody, but all its callers ask first.
- ChatServer.ChatUserManager.Start: requires the name to be free; the program's one caller asks `valid_id` first.
- Messages.NewMessage: what a decoded message holds is not truncated in the program and not bounded here.
- `validateAfterN` and `validateNTimes`: plain counters without a wrap.
- The rest of the logger: files, clocks, locale, macros, crash handling, asynchronous writing.
