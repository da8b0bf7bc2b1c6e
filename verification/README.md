# ME2U: a verified model of the chat protocol

ME2U is a plain-text chat protocol with a Python server (`hw1_server/server.py`) and C clients
(`hw1_cli/client.c`, and an earlier `hw1_client/src/client.c`). A message travels as
TO (sender to server), FROM (server to recipient), MORF (recipient to server) and OT (server to
sender). A login is ME2U, U2EM, IAM, then MAI and MOTD, or ETAKEN. A logout is BYE, answered by EYB,
and UOFF goes to everybody else. Every frame ends in `\r\n\r\n`.

The project models the two programs and the protocol that they form, in five layers.

* **Bytes.** `Text`, `Framing`, `FrameBuffers` and `Wire`: terminators, the growing receive buffer as
  an array, words, tokens, and how each side writes and dispatches frames.
* **Programs.** `Server` (the shared list of users and one iteration of a connection's thread),
  `Partners` (the doubly linked partner list), `Handshake` and `Clients` (login, dispatch, typed lines).
  These are classes whose methods follow the loops and the assignments of the source.
* **Protocol.** `Registry` and `ChatSystem`: any number of clients, one server, a FIFO channel each
  way for each client. One step is one iteration of a client's loop or of a server thread. A run is
  any list of steps; a step that is not enabled changes nothing, so every list is a run, and a theorem
  about the protocol holds for all configured names and all its runs. The state carries a log of events
  that no step reads.
* **The system on bytes.** `ByteSystem` composes the two programs as they are: clients read chunks into
  their buffers and are typed lines into, server threads read messages. `ByteRefinement` proves that it
  and the protocol do the same, run by run in both directions, as long as names are names (not empty,
  without spaces, tabs and line ends), typed messages have no terminator, and none ends in half of one.
  What holds of the protocol holds of the programs under that condition; `ByteFailures` shows what
  happens without it.
* **Theorems.** `Flows`, `Invariant` and `History` hold what every step keeps. `Causality`,
  `Accounting`, `Stays`, `Delivery`, `Logouts`, `Listing`, `Exclusivity`, `Confirmations` and `Progress`
  hold the results about runs of the protocol, and `Sessions` those about the chat of one client;
  `EndToEnd`, `Refinement` and `ByteRuns` join the layers.

The central invariant (`Invariant.InvRun`) says that in each of six flows of frames (TO, FROM, MORF,
OT, EDNE, UOFF), at each connection, the items that entered are the items that left followed by those
waiting in the channel. Order-preserving delivery, the accounts and the causal order all rest on it.

Five properties turned out to hold only under a condition, and the condition is proved exact.

* The error for a confirmation from "a user that never existed" (`hw1_cli/client.c:439-441`) can be
  reached by the system on bytes, with proper names and texts, if and only if two clients are configured
  with one name and a third client with another (`ByteFailures.FailureOnBytesIff`, on top of
  `Confirmations.FailureIffClash` for the protocol). A reply that is still on its way when its addressee
  logs out goes to the next holder of the name. Without the condition on names and texts it is reached
  where no names clash:
  * with any name next to one that has a tab, say (`ByteFailures.BrokenNamesFail`,
    `ByteFailures.TabIsEnough`): README.md:131 rules out spaces only, and the sender of a message keeps
    the name up to the tab as its partner, so that the confirmation is from a stranger;
  * with any names at all, by a text in which taking out one terminator puts another one together
    (`ByteFailures.AnyNamesFail`): the server's `replace` makes one pass, what it forwards is two frames,
    and the second can be a confirmation from anybody.
* Reassembly returns the messages if and only if no chunk crosses the end of a message
  (`Framing.ReassemblyIffAligned`); a read that returns MAI and MOTD together makes the login fail
  (`EndToEnd.CoalescedLoginFails`, `EndToEnd.LoginIffAligned`).
* A typed text reaches the other user's window, from every division of the server's bytes into chunks,
  if and only if it has no terminator of its own and does not end in `\r\n`
  (`EndToEnd.TypedTextArrivesIff`). The terminator overlaps itself by two characters: a frame whose text
  ends in `\r\n` is cut short when a chunk ends two bytes early, though no chunk crosses the end of a
  message, and the next message is lost with the half (`EndToEnd.HalfLosesTheNext`). A line typed with
  the ending `\r\n` is such a text. The same condition decides for any list of messages
  (`Framing.ReassemblesIff`) and for everything that a run sends to a client (`ByteRuns.RunsAreByteRuns`).
  No chunk here is longer than one read of MAXLINE bytes. What the server forwards of a text is one
  frame in every division if and only if what is left after its one pass of `replace` has no terminator
  and does not end in half of one (`EndToEnd.ForwardedIsWholeIff`).
* Dispatch by `strncmp` over the first word agrees with exact matching if and only if that word is not
  a proper prefix of a verb (`Wire.DispatchIsExactIff`); the same holds of typed commands
  (`Clients.CommandIsExactIff`).
* A connection gets into the list of users twice if and only if an IAM with a free name is accepted from
  a connection that is already there (`Registry.OnlyAnotherIamDoubles`).

## Choices where the sources disagree

* The MORF reply names the sender only, as README.md:183 asks and `hw1_client/src/client.c:307-318`
  does. `hw1_cli/client.c:246-251` echoes the text too; `EndToEnd.EchoedReplyReachesNobody` shows that
  then nobody is told.
* ETAKEN is sent, as README.md:145 says; `hw1_server/server.py:58` only prints it.
* The login falls through from state 3 to state 4 and reads again (`hw1_cli/client.c:164-172`) without
  clearing its read buffer. Each read is a fresh chunk here, so the second read is the next round of
  the loop.
* With fewer than four bytes held, the test for the terminator (`hw1_cli/client.c:550`) reads before
  the buffer; it is false here.
* After `/logout` the client's writing half is closed. A FROM that it still reads is shown, and its
  reply cannot be written: the model drops the reply and records the delivery as unanswered. A client
  that this failing write ends is a client that takes no more steps.
* Each iteration of a server thread is one step. The source takes no lock, so this is an assumption.
  One `recv` returns one message, and channels do not fail.
* A connection's socket and its address are one number.
* After BYE the thread calls `recv` on the socket that its handler has closed (hw1_server/server.py:47, 102),
  and that raises. The thread is over all the same, and `Ended` stands for it; `Raised` is kept for handlers.

## Model

| member | source | states |
|---|---|---|
| Text.StripUndoesTerminated | hw1_server/server.py:6-11 | taking the terminator out gives back the text that it was added to exactly when the text contains none, a text that ends in half a terminator included |
| Framing.BytesAreConserved | hw1_cli/client.c:530-559 | for any chunks, the frames returned with their terminators, then the buffer, are the bytes fed in |
| Framing.ReassemblyIffAligned | hw1_cli/client.c:543-559 | the frames returned are the messages, in order, exactly when every message end is a chunk end |
| Framing.FramesAtMessageEnds | hw1_cli/client.c:550-558 | in such a division a chunk returns the message it ends, and no other chunk returns anything |
| Framing.FramableIff | hw1_cli/client.c:550 | the terminator that ends a message is the first in it exactly when the body has none and does not end in half of one |
| Framing.ReassemblesIff | hw1_cli/client.c:543-559 | messages come out of the buffer for every division at their ends exactly when none has a terminator of its own or ends in half of one |
| FrameBuffers.CapacityGrows | hw1_cli/client.c:519-547 | the closed form of the capacity: one growth step makes room for any chunk, and none happens while it fits |
| FrameBuffers.FrameBuffer.constructor | hw1_cli/client.c:19-20 | the buffer starts empty, with one line of zeros |
| FrameBuffers.FrameBuffer.IncreaseFullBuf | hw1_cli/client.c:519-531 | growth by one line of zeros keeps all bytes held |
| FrameBuffers.FrameBuffer.ResetFullBuf | hw1_cli/client.c:532-537 | a reset leaves an empty, valid buffer of one line |
| FrameBuffers.FrameBuffer.StrCat | hw1_cli/client.c:549 | appending within the capacity yields the concatenation, with zeros after it |
| FrameBuffers.FrameBuffer.ProcessString | hw1_cli/client.c:543-559 | the array computes the framing specification, keeps the closed-form capacity and never overflows |
| FrameBuffers.ReadAll | hw1_cli/client.c:211-230 | fed with any chunks, the array buffer returns exactly the specified frames and rest |
| Wire.MeasureWord | hw1_cli/client.c:391-399 | the scan returns the number of characters before the first break |
| Wire.WordThenBreak | hw1_cli/client.c:391-399 | any break ends a word, and exactly one is left out of the rest |
| Wire.ListUsers | hw1_cli/client.c:401-408 | the loop prints the space-separated tokens of the list, in order |
| Wire.TokensSplit | hw1_cli/client.c:401-408 | a space, wherever it is, separates tokens, and does nothing else |
| Wire.ListedNamesReturn | hw1_server/server.py:124-131 | the listing is read back as the same names in the same order exactly when none is empty or has a space |
| Wire.SeparatorIsNotRead | hw1_server/server.py:56-78 | the server cuts its requests at fixed places, whatever character comes after the verb |
| Wire.RequestIsRead | hw1_server/server.py:53-80 | the branches of the server read back every request that a client writes |
| Wire.MatchesIsPrefix | hw1_cli/client.c:231-257 | a branch test holds exactly when the first word is a prefix of the verb |
| Wire.DispatchByPrefix | hw1_cli/client.c:231-260 | the comparisons find the first verb that the first word is a prefix of |
| Wire.VerbsAreDispatched | hw1_cli/client.c:231-260 | a frame whose first word is one of the six verbs takes that verb's branch, whatever follows |
| Wire.DispatchIsExactIff | hw1_cli/client.c:231-260 | dispatch agrees with exact matching exactly when the first word is not a proper prefix of a verb |
| Wire.StartDecides | hw1_client/src/client.c:294-329 | the older client takes a branch exactly on the frames that start with its verb |
| Wire.DispatchesAgree | hw1_client/src/client.c:294-329 | the dispatch by leading text of the older client takes the same branch on every frame that begins with a verb |
| Wire.FrameIsRead | hw1_cli/client.c:229-260 | the client reads back every frame that the server writes to it |
| Handshake.LoginNeverGoesBack | hw1_cli/client.c:109-185 | the login state never decreases |
| Handshake.FramesAreCounted | hw1_cli/client.c:109-185 | three frames are awaited at first, and each one brings the end of the login nearer |
| Handshake.LoggedInIffWelcomed | hw1_cli/client.c:123-182 | state 10 is reached exactly when the first three frames are U2EM, MAI, and one that starts with MOTD, and by the third |
| Handshake.LoginFramesAgree | hw1_cli/client.c:131-178 | the login on text moves as the login of the protocol step does |
| Clients.ChatClient.OnLoginFrame | hw1_cli/client.c:129-180 | one frame of the login, with the error and the taken-name cases, and the name written on U2EM only |
| Clients.ChatClient.LoginProc | hw1_cli/client.c:102-186 | for any chunks, the login ends as the frames in them say, after three of them if it succeeds and at most three if not, each awaited when it came, and its writes are those of `ByteRuns.LoginIsRun` |
| ByteRuns.LoginIsRun | hw1_cli/client.c:118-154 | what a login writes is what a client does that dials and reads the frames: ME2U before anything else, and the name once after U2EM |
| Clients.ChatClient.ChooseBranch | hw1_cli/client.c:231-260 | the chain of comparisons is the specified dispatch |
| Clients.ChatClient.Contact | hw1_cli/client.c:448-458 | the partner named first is made known, and the text after the name goes to its window |
| Clients.ChatClient.OnConfirmation | hw1_cli/client.c:437-446 | exactly the named partner's count rises; a name that is not there is the error |
| Clients.ChatClient.OnFrame | hw1_cli/client.c:229-261 | partners, their counts, what is shown, what is written and the status after a frame, by what the frame says |
| Clients.ChatClient.OnSocket | hw1_cli/client.c:221-262 | one read: the buffer, and if a frame comes out, all that it does |
| Clients.CommandsByPrefix | hw1_cli/client.c:271-301 | the comparisons find the first command that the first word is a prefix of |
| Clients.CommandsAreObeyed | hw1_cli/client.c:271-301 | a line whose first word is a command takes that command's branch, whatever follows |
| Clients.CommandIsExactIff | hw1_cli/client.c:271-301 | the branch is that of exact matching exactly when the first word is not a command cut short |
| Clients.ChatClient.ChooseCommand | hw1_cli/client.c:271-301 | for a typed line the chain returns the first command that the first word is a prefix of |
| Clients.ChatClient.OnStdin | hw1_cli/client.c:264-315 | a typed line: /chat makes its partner known, shows the text and writes TO, /listu and /logout write their verbs, an unknown command is the error |
| Clients.ChatClient.RegularChat | hw1_cli/client.c:203-319 | the loop, for reads and typed lines in any order, up to its end or error, computes the fold that `Sessions` is about |
| Clients.FramesAgree | hw1_cli/client.c:229-260 | on frames as the server writes them, the client does what the protocol step does |
| Partners.PartnerList.FindUser | hw1_cli/client.c:460-471 | the scan ends, and finds a node exactly when the name is listed |
| Partners.PartnerList.Append | hw1_cli/client.c:478-487 | linking at the tail keeps head, tail, next and prev in agreement |
| Partners.PartnerList.CreateNewUser | hw1_cli/client.c:473-488 | a new partner goes to the end, and the others are unchanged |
| Partners.PartnerList.ProcessMsg | hw1_cli/client.c:448-458 | the partner named by the first word is found or added, and the text is what follows one break |
| Partners.PartnerList.MsgConfirmed | hw1_cli/client.c:437-446 | exactly the named partner's count rises by one; for an unknown name the error branch is taken and nothing changes |
| Sessions.ConfirmationsAreCounted | hw1_cli/client.c:437-446 | in every chat without an error, whatever the chunks and lines, each partner's count is the number of OT frames read that name it, and no other name had one |
| Sessions.MessageIsShown | hw1_cli/client.c:448-458 | from every division of a FROM frame, the client shows exactly its text in its sender's window, has the sender as a partner, and answers with the sender's name |
| Sessions.ListingIsShown | hw1_cli/client.c:401-408 | a listing is shown as the names in the registry, in order, one on a line |
| Sessions.NoticesAreShown | hw1_cli/client.c:410-424 | EDNE and UOFF are shown with the name in them |
| Sessions.StrangeFramesAreIgnored | hw1_cli/client.c:231-260 | a frame whose first word begins no verb changes nothing |
| Sessions.PlainLinesAreIgnored | hw1_cli/client.c:271-278 | a line without a slash, or /help, changes nothing |
| Sessions.StrangeCommandsEnd | hw1_cli/client.c:311-314 | any other line with a slash closes the writing half and takes the error exit, and writes nothing |
| Sessions.ChatIsCutAtFive | hw1_cli/client.c:287-299 | /chat, cut short or not: what is written and who is met are cut at fixed places of the line |
| Sessions.NothingIsWrittenAfterLogout | hw1_cli/client.c:301-309 | after a logout nothing is written, whatever is read or typed |
| Sessions.ChatEnds | hw1_cli/client.c:255-258 | a chat that is over, or has failed, takes no more input |
| Sessions.FramesFollow | hw1_cli/client.c:229-261 | a frame does in the chat what it does to the client in the system on bytes |
| Sessions.LinesFollow | hw1_cli/client.c:264-315 | and so does a typed line |
| Partners.FirstContactOrder | hw1_cli/client.c:448-488 | the list holds each name met once, in the order of first contact |
| Partners.ProcessAll | hw1_cli/client.c:448-488 | any sequence of messages leaves a well-formed list of the names in them |
| Server.ChatServer.GetNameFromAddr | hw1_server/server.py:109-113 | the scan returns the name registered for the connection |
| Server.ChatServer.FindUserToSendMsgTo | hw1_server/server.py:115-121 | one FROM to the holder of the name, or the answer that there is none; a sender without a name raises |
| Server.ChatServer.SendOtToUsr | hw1_server/server.py:86-90 | the loop without break writes OT to every user of that name |
| Server.ChatServer.RemoveUsrByAddr | hw1_server/server.py:92-106 | EYB to the leaver, the first entry on its address cut out of the list and all others left in place, then one UOFF to each of them in order; raises for a stranger |
| Server.ChatServer.TellAll | hw1_server/server.py:104-106 | the loop writes one UOFF to each user in order |
| Server.ChatServer.GetUsers | hw1_server/server.py:124-131 | the loop builds the listing of the names |
| Server.ChatServer.HandleUser | hw1_server/server.py:46-83 | one iteration, for any bytes: new list, packets written and fate of the thread, as the text lemmas below say |
| Server.LoginTexts | hw1_server/server.py:53-66 | the answers to ME2U and IAM, to any connection, and what they do to the list and the thread |
| Server.MessageTexts | hw1_server/server.py:71-76 | the answer to TO: FROM to the holder of the name, or EDNE to the sender |
| Server.ReplyTexts | hw1_server/server.py:77-78 | the answer to MORF: OT to the holder of the name |
| Server.BareTexts | hw1_server/server.py:67-80 | the answers to LISTU and BYE: the list, or EYB first and then UOFF to the others in order, and the end of the thread |
| Server.AnswerTexts | hw1_server/server.py:53-121 | the texts of the server's frames |
| Server.NoTextRaises | hw1_server/server.py:72 | TO with a name only raises, and sends nothing |
| Server.StrangeRequestsEnd | hw1_server/server.py:81-83 | any other text ends the connection, and changes nothing else |
| Server.TextIsHandled | hw1_server/server.py:51-83 | on frames as clients write them, the thread does what the protocol step does |
| Registry.HolderOf | hw1_server/server.py:135-139 | a lookup by name succeeds exactly when the name is listed, and returns an entry of the list |
| Registry.NameOf | hw1_server/server.py:109-113 | a lookup by connection succeeds exactly when the connection is listed |
| Registry.FirstIsCutOut | hw1_server/server.py:92-113 | the lookup by connection finds the first entry on it, and a logout cuts exactly this one out of the list |
| Registry.FirstOfName | hw1_server/server.py:115-121 | the lookup by name finds the first entry of that name |
| Registry.LeaverIsToldFirst | hw1_server/server.py:92-106 | BYE sends EYB to its sender, then UOFF to everybody else in the order of the list |
| Registry.StrangersAreTurnedAway | hw1_server/server.py:71-80 | for a connection that is not registered: TO to a known name raises and to an unknown one gets EDNE, MORF to a known name and BYE raise, LISTU is answered |
| Registry.ScansAgree | hw1_server/server.py:109-121 | with names and connections distinct, both lookups find each entry from either side |
| Registry.SendToAllNamedIsOne | hw1_server/server.py:86-90 | with distinct names the loop without break sends at most one OT, to the holder |
| Registry.RequestOnMap | hw1_server/server.py:56-80 | seen as a map, IAM adds a free name, BYE removes the sender's name, and nothing else changes it |
| Registry.NamesStayDistinct | hw1_server/server.py:56-66 | under any requests from any connections no name is listed twice, and no OT goes to two connections |
| Registry.OnlyAnotherIamDoubles | hw1_server/server.py:56-66 | one request puts a connection into the list twice exactly when it is an accepted IAM of a connection that is there |
| Registry.ConnsStayDistinct | hw1_server/server.py:56-66 | with one IAM per connection, no connection is listed twice |
| Registry.TwoNamesOnOneConnection | hw1_server/server.py:56-66 | a connection that sends IAM twice holds two names |
| Flows.ConservedStep | hw1_server/server.py:43-121 | a step keeps a flow conserved when its event accounts for the frames it moves |
| Invariant.AnswerIsSent | hw1_server/server.py:53-121 | what each connection is sent for a frame, the broadcast included |
| Invariant.PhaseStep | hw1_cli/client.c:102-319 | every step keeps login state, channels, thread and registration in agreement |
| Invariant.InvRun | README.md:133-220 | in every state of every run, phases, registry and all six flows are in order |
| History.Reached | hw1_cli/client.c:437-488 | in every state, events agree with the registry of their moment, and partner lists are the names met so far in order |
| Causality.RunsAreCausal | README.md:174-187 | in each flow what was read is the beginning of what was written, each item after its writing |
| Causality.OriginOf | README.md:174-187 | each frame read was written strictly earlier, with the same content |
| Causality.OriginsInOrder | README.md:174-187 | frames are read in the order of their writing |
| Causality.ConfirmationHasTrace | README.md:174-187 | each processed MORF, and so each OT, is preceded by its TO, FROM and reading, in that order |
| Causality.TracesAreDistinct | README.md:174-187 | no two confirmations share a TO, a FROM or a reading |
| Exclusivity.NamesAreExclusive | hw1_server/server.py:56-66 | approved clients whose BYE is not processed are registered under their names, and no two share one |
| Exclusivity.RegisteredAreApproved | hw1_server/server.py:60-66 | everyone registered is approved or has MAI at the head of the channel |
| Exclusivity.HandlersNeverRaise | hw1_server/server.py:71-80 | no handler of a frame raises in any run: senders of TO, MORF and BYE are registered |
| Exclusivity.OnlyStrangersFail | hw1_cli/client.c:123-181 | a client takes an error branch exactly on reading OT from a name that it has not met |
| Stays.StayOf | hw1_server/server.py:56-66 | whoever has registered has one stay, from its IAM to its BYE, and what comes while it is registered is what comes then |
| Logouts.LogoutsAreHeard | hw1_server/server.py:92-106 | UOFFs read, then those queued, are the logouts of others between one's own IAM and BYE, in order |
| Logouts.OutsidersHearNothing | hw1_server/server.py:104-106 | a client that never registered is sent no UOFF |
| Listing.WithoutIsOthers | hw1_server/server.py:103 | taking out a connection that is listed once leaves all the others in their order |
| Listing.UsersAreInOrder | hw1_server/server.py:56-66 | in every state of every run the list is the registered clients, in the order of their IAMs |
| Listing.ListingIsInOrder | hw1_server/server.py:67-70 | and LISTU is answered with just these names |
| Delivery.NothingLost | hw1_server/server.py:115-121 | what was received from a name, then what is queued, is what was forwarded for it, in order |
| Delivery.InOrderDelivery | hw1_server/server.py:71-76 | for any name: what a client has received from it, then what is queued, is all that the server processed of its messages to the client between the client's IAM and BYE, in order, none refused |
| Delivery.OutsidersReceiveNothing | hw1_server/server.py:115-121 | a client that never registered is sent no message |
| Delivery.OwnMessagesInOrder | hw1_server/server.py:71-76 | if nobody else has had the sender's name, those are the messages of that one connection |
| Delivery.ProcessedInOrder | hw1_cli/client.c:287-299 | the messages of a connection to a name are processed in the order in which they were sent |
| Delivery.RefusalsReturn | hw1_server/server.py:74-76 | every message processed is forwarded or refused, and each refusal goes back to its sender in order |
| Accounting.Accounts | README.md:174-187 | for each pair of names: typed = processed + queued, processed = forwarded + refused, forwarded = delivered + queued, replies = confirmed + queued, OT sent = OT read + queued |
| Accounting.AcknowledgementsNeverExceed | README.md:174-187 | OT read <= OT sent <= MORF processed <= FROM delivered <= TO processed <= TO typed, for each pair of names |
| Accounting.AccountsWithoutLogouts | README.md:174-187 | with no logouts every MORF gives an OT, and what was typed is what was refused, what was confirmed and read, and the frames in flight |
| Accounting.QuietIsSettled | README.md:174-187 | with no logouts and no frame in a channel, every message typed was refused or its confirmation has been read |
| Confirmations.StrangersNeedTwoHolders | hw1_cli/client.c:437-441 | in the protocol, an OT from a name not met needs a second connection that has registered the same name, and a third name |
| Confirmations.ConfirmersAreKnown | hw1_cli/client.c:287-298 | in the protocol, where a typed name is met whole: if no name is registered twice, every queued OT comes from a partner |
| Confirmations.NobodyFails | hw1_cli/client.c:437-441 | in the protocol, if no name is registered twice, no client takes an error branch |
| Confirmations.ClashReachesFailure | hw1_server/server.py:77-78 | a run that reaches the error with empty messages, for any two clients of one name and a third of another |
| Confirmations.FailureIffClash | hw1_cli/client.c:437-441 | some run of the protocol reaches the error exactly when the configured names clash in that way |
| ByteRefinement.BytesFollow | hw1_cli/client.c:203-319 | every run on bytes with proper names and lines, whatever the chunks, is a run of the protocol: same users, states, partners and writes, and buffers and channels that hold its frames |
| ByteRefinement.ProtocolIsFollowed | hw1_cli/client.c:203-319 | every run of the protocol with proper names and input is a run on bytes |
| ByteRefinement.ReadAgrees | hw1_cli/client.c:543-559 | a read that leaves some of a message changes nothing in the protocol, and the read of its last byte is the step that receives it |
| ByteFailures.FailureOnBytesIff | hw1_cli/client.c:437-441 | with proper names, some run on bytes with proper lines reaches the error exactly when the names clash |
| ByteFailures.ConfirmersAreKnownOnBytes | hw1_cli/client.c:287-298 | if all configured names are proper and differ, then in every run on bytes each confirmation that waits for a client comes from a partner, and no client takes an error branch |
| ByteFailures.FailureOnFramesIff | hw1_cli/client.c:437-441 | the same for texts that may end in half a terminator, if the chunks do not cut there |
| ByteFailures.BrokenNamesFail | hw1_cli/client.c:287-298 | without a clash: a run on bytes that reaches the error, for any name next to one with a break other than a space in it |
| ByteFailures.TabIsEnough | README.md:131 | two such names, which do not clash |
| ByteFailures.AnyNamesFail | hw1_server/server.py:6-11 | without a clash: a run on bytes that reaches the error for any proper names, by one typed text that is forwarded as two frames |
| Progress.HandlingLowers | hw1_server/server.py:43-121 | every frame handled makes what remains to be handled less |
| Progress.HandlingEnds | hw1_server/server.py:43-121 | however frames are handled after a run, it ends after a number of steps that its channels give |
| Progress.CanBeDrained | hw1_server/server.py:43-121 | from every state it is possible to go on until no frame can be handled |
| Progress.DrainedIsEmpty | hw1_cli/client.c:203-319 | when no frame can be handled, the channels of every client that has not failed are empty |
| Progress.EveryMessageIsSettled | README.md:174-187 | without logouts and clashes, once no frame can be handled each message typed has been refused, or its confirmation read |
| EndToEnd.RequestIsStripped | hw1_server/server.py:6-11 | of any message the server reads the name as typed, and the text as one pass of `replace` leaves it |
| EndToEnd.RequestArrivesIff | hw1_server/server.py:71-72 | the server reads a message as it was typed exactly when the text has no terminator of its own |
| EndToEnd.ChatLineIsRequest | hw1_cli/client.c:287-297 | a /chat line is written as TO with the same name and text, and its name becomes a partner |
| EndToEnd.ForwardedIsWholeIff | hw1_server/server.py:71-76 | what the server forwards of any typed text is one frame in every division exactly when what the pass leaves has no terminator and does not end in half of one |
| EndToEnd.TextBecomesTwoFrames | hw1_server/server.py:6-11 | the failing case: one typed text that arrives as two frames, the second of them any frame, though no chunk crosses the end of a message |
| EndToEnd.ChatMeetsIff | hw1_cli/client.c:287-298 | /chat makes the typed name a partner exactly when it has no break in it, or is one already |
| EndToEnd.BrokenNameFails | hw1_cli/client.c:287-298 | hop by hop: a message to a name with a break is forwarded, answered and confirmed, and the confirmation takes the error branch |
| EndToEnd.ReceivedIff | hw1_cli/client.c:448-457 | a FROM frame is read as its sender and text, from every division into chunks, exactly when the text has no terminator and does not end in half of one |
| EndToEnd.TypedTextArrivesIff | hw1_cli/client.c:287-297 | from the typed line through server, every division into chunks and dispatch, the recipient gets exactly sender and text, under exactly that condition |
| EndToEnd.HalfLosesTheNext | hw1_cli/client.c:543-559 | the failing case: a text that ends in half a terminator is cut, and the next message is not understood |
| EndToEnd.ReplyNamesSender | hw1_client/src/client.c:307-318 | the reply is MORF with the sender's name only |
| EndToEnd.EchoedReplyReachesNobody | hw1_cli/client.c:246-251 | an echoed reply makes the server tell nobody |
| EndToEnd.LoginIffAligned | hw1_server/server.py:61-64 | the server's login frames complete the login exactly when no chunk crosses the end of one |
| EndToEnd.CoalescedLoginFails | hw1_cli/client.c:156-161 | MAI and MOTD in one read make the login fail |
| Refinement.StepsAreByteSteps | hw1_server/server.py:46-83 | with names and texts without terminators, the head of every channel is handled on bytes as the protocol step says, and survives every division unless its text ends in half a terminator |
| ByteRuns.ChatLineIsStep | hw1_cli/client.c:287-299 | the line /chat name text does what the protocol step does to partners, writes and state |
| ByteRuns.ListLineIsStep | hw1_cli/client.c:280-285 | so does a line that is read as /listu |
| ByteRuns.LogoutLineIsStep | hw1_cli/client.c:301-309 | so does a line that is read as /logout, and closes the writing half |
| ByteRuns.ServerFollows | hw1_server/server.py:43-83 | over every run, the server folded over the bytes it receives has the run's list of users |
| ByteRuns.ServerWrites | hw1_server/server.py:43-121 | and has written to each connection exactly the frames of the run, in order |
| ByteRuns.ClientFollows | hw1_cli/client.c:102-319 | over every run, a client folded over its frames and typed lines has the run's state, partners and writes |
| ByteRuns.RunsAreByteRuns | hw1_cli/client.c:543-559 | both together over every run: what the server wrote to a client carries the run's frames, they survive every division exactly when no text ends in half a terminator, and the client that reads them ends where the run does, its writes being what the server received and what is still in the channel |

## Left out

- Sockets, `select`, timeouts, address parsing, connecting and thread creation: channels and the choice of the next step replace them.
- Abrupt disconnects, end of typed input without /logout, and writes that fail at the server: they leave entries in the registry behind, and the protocol asks for BYE.
- Requests that the server does not know, TO without a text, and TO, MORF or BYE before the login are handled by `Server` and `Registry`, but well-formed clients do not send them, so runs do not contain them.
- Messages longer than one `recv` of 4096 bytes: one `recv` is assumed to return one message.
- A chunk of exactly MAXLINE bytes fills the read buffer without a final zero; chunks are values here, so what C reads after it is not modelled. Nor are zero bytes inside a chunk, or sizes beyond a C `int`.
- The process and pipe behind each partner's window (the text that goes to it is modelled), `hw1_cli/chat.c`, and what is typed in chat windows (hw1_cli/client.c:321-372), whose TO frames lack the space after the verb.
- Partners.PartnerList: the node and the user structure it points to are one object, and the counter that the source never raises is not there.
- EndToEnd.ReplyNamesSender: a FROM without a name, on which the older client dereferences null, is the missing result.
- Short allocations for terminators, names and replies (hw1_cli/client.c:246, 373-379, 475): strings are values.
- Colours, help and usage texts, error messages, and the message of the day with the length it is shown with.
- The login of the older client, which does not reassemble frames.
- What a UTSIL frame lists at which moment: it is the registry when the request is served, by definition of the step.
- Fairness: `Progress` shows that handling frames ends, and with what; that threads and clients do take their turns is the scheduler's part.
- Confirmations.ConfirmersAreKnown: is about the protocol, where a typed name is met whole; the program keeps its first word, `EndToEnd.ChatMeetsIff` says when that is the name, and `ByteFailures.ConfirmersAreKnownOnBytes` is the statement about the programs.
- Confirmations.NobodyFails: is about the protocol; `ByteFailures.ConfirmersAreKnownOnBytes` is the statement about the programs, with proper names and texts.
- Confirmations.FailureIffClash: is about the protocol; `ByteFailures.FailureOnBytesIff` is the statement about the programs.
- ByteFailures.FailureOnBytesIff: a line typed is read at once here, however long it is; the source reads MAXLINE bytes of it at a time.
