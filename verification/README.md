# Verified model of imsd

imsd brings up an IMS data session on a Qualcomm modem and tells the modem, over
a small QRTR service it serves itself, which address the session got. This
project models its five algorithmic parts in Dafny and proves properties of
them:

- **TLV messages** (`Bytes.dfy`, `Tlvs.dfy`, `Walk.dfy`, `QmiUtil.dfy`): the
  builders and walkers of `qmi-util.c`, with the 16-bit cursor kept. The walk is
  a deterministic machine over any packet; it refines decoding on whole items,
  and it is left exactly when the cursor never comes back to a position.
- **DCM service** (`Dcm.dfy`, `DcmLookups.dfy`, `DcmMessages.dfy`,
  `DcmReplies.dfy`, `DcmRuns.dfy`): session table, transaction ids, which request
  packets the handler can follow inside its buffer, and requests followed to the
  bytes of their replies.
- **WDS bring-up** (`Wds.dfy`, `Inet.dfy`, `WdsSerial.dfy`, `WdsDialogue.dfy`,
  `WdsTracked.dfy`, `WdsExact.dfy`, `WdsTimely.dfy`, `WdsFree.dfy`): the readiness
  machine, in
  three environments. *Free* runs let initiations, ticks and replies come in any
  order, asked for or not. *Tracked* runs let ticks and initiations come at any
  time and replies answer outstanding requests in any order; the code asks again
  on every tick except for the link, so requests pile up, and which replies then
  break the session is told exactly. *Timely* runs, in which no reply takes
  effect at another step than its request was sent at, are safe, and progress is
  proved for them from SETUP_LINK on. *Serialised* runs, which are timely, let
  ticks and initiations happen only while no reply is outstanding, a whole
  profile scan counting as one reply; there progress is proved from the start, and the
  machine is shown to keep to a dialogue told without steps: which question comes
  next, and after how many idle ticks.
- **PDC list barrier** (`Pdc.dfy`, `PdcJoin.dfy`): n + 1 replies joined by
  tokens and a counter, and the requests sent on the way.
- **MCFG images** (`Mcfg.dfy`, `McfgCopies.dfy`, `Footer.dfy`, `FooterImages.dfy`):
  offset accounting over items, what is copied of them, and the cutting of the
  footer into sections, as a round trip from footers written out.
- **End to end** (`EndToEnd.dfy`, `Progress.dfy`): from activation request
  packets to the bytes of the address indication, and that one is sent.

Objects the program updates in place are classes; each method is proved against
a function on values, and the theorems are about those functions over all
inputs or all runs. `dafny verify dfyconfig.toml` checks the project.

## What the code does that a reader may not expect

Each of these is stated with the exact condition under which the expected
behaviour holds.

- A walker can loop forever: an item length of 65533 holds the 16-bit cursor
  still (`Walk.StuckItem`, `Walk.DivergesIffRevisits`).
- `build_u32_tlv` checks room for four bytes and writes seven
  (`QmiUtil.U32StaysInside`).
- A lookup that runs over the end of a request answers -EINVAL as 65514, which
  the handler takes for an offset and reads at, far outside its 1024 bytes
  (`DcmLookups.HandlerLedOutside`, `DcmLookups.ActivationReadableIff`).
- A notification for slot 0 speaks for entry 1 until slot 1 has been activated,
  because both blank entries carry slot number 0 and the last match wins
  (`DcmRuns.Resolution`, `EndToEnd.NotificationNamesSession`; a run in which it
  happens is `Progress.SlotZeroMisnamed`).
- The address text is stored without its terminator, so a shorter address over a
  longer one reads as a mixture (`EndToEnd.NotificationCarriesAddress`; a run is
  `Progress.ShorterAddressMisread`).
- A refused add-link request is never repeated and the session hangs
  (`WdsSerial.FinishesIffLinkNotRefused`).
- A start-network request answered with an error other than CALL_FAILED counts as
  done: the session goes on, notifies, and no network was started
  (`WdsSerial.FinishesUpIff`; a run is `Progress.AnnouncedWithoutNetwork`). After
  no reply or CALL_FAILED the request is repeated.
- Ticks at steps 7 and 12 ask again before the first reply is there, and each
  accepted reply counts the step up, wherever it has got to. Two settings replies
  lead to step 14, where ticks do nothing, or past step 99, where the timer gives
  up without a notification (`WdsTracked.TwoRepliesStick`,
  `WdsTracked.LateReplyGivesUp`). Two accepted binds lead to step 10 without a
  start request ever sent, where the session waits; three go on to announce an
  address for a network nobody asked for (`WdsExact.TwoBindsWait`,
  `WdsExact.ThreeBindsNotify`). The step stays in range, and the session safe,
  exactly when every reply passes a guard (`WdsExact.RangeIff`,
  `WdsExact.SafeIffFitting`); timely replies do (`WdsExact.TimelyFits`).
- Ticks at step 0 ask for the profile list again, and each list restarts the scan,
  so a session can stay there for ever although every request is answered
  (`WdsTimely.ScanRestartsForever`, `WdsTimely.NotifiesIffComesToLink`).
- An NV item can take 12 + 65535 bytes and a file item more; from 65536 bytes on
  its 16-bit size loses the excess (`Mcfg.SizesMakeUpFile`).
- A profile list that comes while a profile is asked about restarts the scan, and
  the answer is put down to another profile (`WdsExact.WrongProfileTaken`,
  `WdsExact.ProfileIff`).
- The counter of described configurations is never reset: a second list as long as
  the first counts as complete before any of its descriptions is there
  (`PdcJoin.SecondList`).
- Every NV item is copied into 64 bytes and every file name into 256, whatever
  their length; exactly which items fit is `McfgCopies.CopyFitsIff`.
- The country and network codes of a footer are 16-bit fields of which only the
  low bytes are reported, and in a section shorter than six bytes those are bytes
  of what follows it (`Footer.CodesFromFooter`).

## Model

| member | source | states |
|---|---|---|
| QmiUtil.GetTlvOffsetById | qmi-util.c:51-82 | on every packet the loop is left on and whose item headers it reads inside the buffer: the offset of the item found, 65514 (-EINVAL as an unsigned word) on overrun, 0 otherwise |
| QmiUtil.CountTlvsInMessage | qmi-util.c:186-211 | the number of rounds of the walk; the 16-bit counter never wraps on such a packet |
| QmiUtil.DidQmiOpFail | qmi-util.c:89-132 | on every such packet whose result item, if one is found, has its seven bytes in the buffer: the result word of the item found, UNKNOWN at the end, FAILURE when too short or overrun |
| Walk.OutcomeUnique | qmi-util.c:60-78 | one outcome and one number of rounds per packet and query |
| Walk.DivergesIffRevisits | qmi-util.c:61-78 | the loop never ends if and only if the cursor revisits a position within 65536 rounds |
| Walk.NoWrapReturns | qmi-util.c:61-78 | on any packet, well formed or not, the walk ends within `len` rounds as long as no visited item carries the 16-bit cursor past 65535 |
| Walk.StuckItem | qmi-util.c:71-72 | any packet whose first item has length 65533 and does not match is never left |
| Walk.RunningBelow | qmi-util.c:199-200 | a walk that is left takes fewer than 65536 rounds |
| Walk.WalksItems | qmi-util.c:60-78 | on a header and whole items, round k stands at item k until something matches, and the walk ends after the last |
| Walk.WholeItemsReturn | qmi-util.c:60-78 | every packet of whole items is left, whatever is looked for, and no item header is read behind the buffer |
| QmiUtil.LookupRefines | qmi-util.c:45-82 | on whole items the lookup gives the offset of the first item with the id, or 0, and that item lies there |
| QmiUtil.CountRefines | qmi-util.c:186-211 | on whole items the count is the number of items |
| QmiUtil.WholeItemsResult | qmi-util.c:100-114 | on whole items a result item that is found lies within the packet |
| QmiUtil.OpResultRefines | qmi-util.c:84-132 | on whole items the result is that of the first (0x02, length 4) item, or UNKNOWN |
| QmiUtil.SucceedsIff | qmi-util.c:89-132 | success if and only if the walk finds a result item whose word is 0 |
| QmiUtil.FailuresAre | qmi-util.c:89-132 | below eleven bytes or on overrun the answer is failure, without a result item unknown |
| QmiUtil.HeaderFields | qmi-util.c:18-43 | the accessors read back each header field |
| QmiUtil.BuildQmiHeader | qmi-util.c:137-153 | -ENOMEM below 7 bytes with nothing written; otherwise the seven header bytes, length counting what follows, and nothing else changed |
| QmiUtil.BuildU8Tlv | qmi-util.c:155-169 | -ENOMEM when the item does not fit, else exactly its four bytes are written |
| QmiUtil.BuildU32Tlv | qmi-util.c:171-185 | the guard is that of a four-byte item; on acceptance exactly seven bytes are written |
| QmiUtil.U32StaysInside | qmi-util.c:173-182 | bytes from the stated buffer length on are left alone exactly when the seven-byte item fits; otherwise the top of the value lands there |
| QmiUtil.BuildAllExtends | qmi-util.c:155-185 | builds at consecutive offsets leave everything before them alone and append exactly their items |
| QmiUtil.BuiltPacketHolds | qmi-util.c:137-185 | header and builds that fill the buffer make a packet of exactly those items with a correct length field |
| QmiUtil.BuildRoundTrip | qmi-util.c:137-211 | walking the built packet meets each item as it was asked for, and counts them all |
| Tlvs.ValueOfPermuted | qmi-util.c:45-50 | with distinct ids, a lookup by id does not depend on item order |
| Dcm.QrtrServer.constructor | dcm.c:362-371 | a zeroed table and transaction id 99 |
| Dcm.QrtrServer.NotifyPdpIpAddressChange | dcm.c:53-154 | rejects unknown slots without consuming an id; otherwise advances the id and emits the indication of the last matching entry |
| Dcm.QrtrServer.UpdateSession | dcm.c:207-258 | on every packet the handler can follow inside its buffer that names one of the two slots: the entry of that slot takes the fields present, all others stay |
| Dcm.QrtrServer.HandleIncomingRequest | dcm.c:197-331 | new table, session start and reply bytes for each message id, activations under the same condition; unknown ids get no reply |
| DcmLookups.RunsOverIff | qmi-util.c:71-78 | a walk overruns if and only if it comes to an item that does not match and whose end, in 16 bits, is 0 or past the packet |
| DcmLookups.FetchableIff | dcm.c:209-256 | a lookup is followed inside the buffer if and only if the walk is left, reads no item header behind the buffer, does not overrun, and what it finds has room for the value |
| DcmLookups.ActivationReadableIff | dcm.c:207-258 | on packets of any length received into its 1024 bytes, the handler reads inside them if and only if that holds of all four lookups |
| DcmLookups.HandlerLedOutside | dcm.c:209-256 | on no packet whose first item has length 32767 does it stay inside, whatever that item is |
| Dcm.BuildIndication | dcm.c:77-128 | the five items of the indication behind a header whose length is filled in last |
| Dcm.BuildActivateResponse | dcm.c:220-284 | the four items of the activation response behind its header |
| DcmMessages.ActivationOfItems | dcm.c:223-258 | from a packet of whole items the handler picks out exactly the activation the items mean |
| DcmMessages.OrderIndependent | dcm.c:207-284 | any reordering of items with distinct ids gives the same table, the same session start and byte-identical reply |
| DcmMessages.IndicationRoundTrip | dcm.c:77-128 | 40 + m bytes, length field 33 + m, five items, a success, and the walker reads back id, sequence, address and instance |
| DcmMessages.ResponseRoundTrip | dcm.c:261-284 | 32 bytes, four items, and the walker reads back the entry and the transaction of the request |
| DcmMessages.AcknowledgeRoundTrip | dcm.c:286-331 | the 14-byte acknowledgement echoes message and transaction and is a success to `did_qmi_op_fail` |
| DcmReplies.ActivationAnswered | dcm.c:207-284 | an activation request of whole items gets a 32-byte success that echoes its message and transaction and, read by the walker, carries its own sequence and instance where present and the stored ones of its slot elsewhere; exactly what it has is stored there, and that slot is started |
| DcmReplies.OthersAnswered | dcm.c:286-331 | exactly 0x23, 0x2e, 0x33 and 0x34 are acknowledged besides, by a 14-byte success echoing message and transaction; the table stays, nothing starts |
| DcmReplies.ExampleAnswered | dcm.h:71-100 | the request written out in dcm.h, byte by byte: table, session start and the 32 bytes of the reply |
| DcmReplies.ExampleNotified | dcm.c:66-128 | the first indication of that session for 192.168.0.1, byte by byte |
| DcmMessages.AnnouncesOne | dcm.c:95-126 | an indication announces one session and one address only |
| DcmRuns.StepTouches | dcm.c:207-258 | an activation changes the entry of its slot only, a notification none |
| DcmRuns.SlotNumbers | dcm.c:243-249 | over all runs entry 0 has slot number 0, and entry 1 has number 1 exactly when slot 1 has been named |
| DcmRuns.Resolution | dcm.c:59-70 | slot 1 is found exactly when it has been named; slot 0 resolves to entry 0 exactly when slot 1 has been named |
| DcmRuns.TransactionIds | dcm.c:66-76 | after n sent notifications the id is ((n - 1) mod 99) + 1; rejected ones consume none |
| DcmRuns.NinetyNineDistinct | dcm.c:72-76 | no id is 0 and any 99 consecutive indications carry distinct ids |
| Inet.MmCountBitsSet | wds.c:651-657 | the number of rounds, and so the count, is the number of ones |
| Inet.ClearsLowestBit | wds.c:654-655 | `n & (n - 1)` subtracts two to the power of the lowest bit and takes one from the count |
| Inet.MmFindBitSet | wds.c:659-665 | the index of the lowest one, for nonzero numbers |
| Inet.LowestBitSplits | wds.c:659-665 | a number is an odd multiple of two to that index |
| Inet.MmNetmaskToCidr | wds.c:667-672 | the number of ones in the parsed mask |
| Inet.TextRoundTrip | wds.c:640-649 | parsing the dotted quad of an address gives it back |
| Inet.OctetsSum | wds.c:640-649 | the octets printed are those of the address, most significant first |
| Inet.PrintedAs | wds.c:640-649 | 0xC0A80001 is printed as 192.168.0.1 |
| Inet.ParsingSwaps | wds.c:640-672 | parsing a printed address leaves its four bytes in the opposite order |
| Inet.MaskCountSurvives | wds.c:758-759 | printing a mask and parsing it back, which swaps its bytes, preserves the count |
| Inet.LeadingOnesCount | wds.c:651-672 | a width-w mask with p leading ones counts p |
| Inet.MaskGivesPrefix | wds.c:758-759 | a 32-bit mask with p leading ones is reported as prefix p |
| Wds.WdsClient.InitiateWdsSession | wds.c:947-957 | all session fields reset except the address buffer |
| Wds.WdsClient.GetWdsReadyToConnect | wds.c:836-930 | the step, the request sent and the fate of the timer for every step value |
| Wds.WdsClient.FindProfileAddModify | wds.c:845-852 | creates a profile when none is chosen, else asks for a modification and moves on |
| Wds.WdsClient.SetupLink | wds.c:438-453 | a tick at this step sends the add-link request if none has been sent since the initiation, and only then |
| Wds.WdsClient.GetNextProfileSettings | wds.c:148-178 | the next request of a scan, or its end with step 1 when no profile was chosen |
| Wds.WdsClient.ProfileListReady | wds.c:180-228 | failed, empty and non-empty lists |
| Wds.WdsClient.ProfileSettingsReady | wds.c:57-146 | a reply with exactly the IMS mask selects its profile; the scan goes on |
| Wds.WdsClient.AddNewProfileReady | wds.c:256-297 | the profile created is taken over, with step 2 |
| Wds.WdsClient.SetupLinkReady | wds.c:416-436 | an accepted link moves the step on |
| Wds.WdsClient.BindMuxDataPortReady | wds.c:464-479 | an accepted bind moves the step on |
| Wds.WdsClient.StartNetworkReady | wds.c:560-611 | back by one without output, to 6 on CALL_FAILED, on by one otherwise |
| Wds.WdsClient.GetCurrentSettingsReady | wds.c:750-800 | stores the address text and moves on only when mask and address are there; the prefix is the mask's count |
| Wds.ScanPicksLast | wds.c:101-113 | a full scan ends with the last profile that reported exactly the IMS mask; step 2 if its index is nonzero, else 1 |
| WdsSerial.RunsKeepInv | wds.c:836-930 | the invariant of serialised runs: which request can be outstanding at which step, link, bind and address state |
| WdsSerial.SafeAlways | wds.c:836-930 | in every serialised run: step in 0..13 or 99, no profile at step 1 and never a modify request, link accepted from 5 and bound under its own multiplexer id, bind accepted since CALL_FAILED from 8, network started with the chosen profile, no packet handle before that, network up from 11 exactly when the last start reply was no error, address stored since that reply at 99 |
| WdsSerial.DueAdvances | wds.c:565-611 | every event spends a failure, notifies, or brings the session nearer to its end |
| WdsSerial.Reaches | wds.c:836-930 | with any modem that fails finitely often and accepts the link, the session notifies |
| WdsSerial.RefusedNeverFinishes | wds.c:442-452 | after a refused link the session never notifies |
| WdsSerial.FinishesIffLinkNotRefused | wds.c:416-453 | from any reachable state with a live timer and finitely many failures: notification, with or without a network, if and only if the link is not refused |
| WdsSerial.FinishesUpIff | wds.c:560-611 | under the same conditions: notification with the network up if and only if the link is not refused and no start request is answered with an error other than CALL_FAILED |
| WdsDialogue.RunsFollowDialogue | wds.c:836-930 | at any time of any serialised run the questions and answers since the initiation determine, to the tick, what the next tick does, and which request is pending: after no start output the start again, after CALL_FAILED the bind, and so on |
| WdsDialogue.StartsChosenProfile | wds.c:287-294 | every start request names the profile last created, or last reported with exactly the IMS mask |
| WdsDialogue.LogsAreScripted | wds.c:836-930 | every question of a run is the one the dialogue had next |
| WdsDialogue.RunsBalance | wds.c:560-611 | since an initiation, accepted binds and start replies without output together are the start requests answered, but for the one due next |
| WdsTracked.TimelyRunsSafe | wds.c:836-930 | with requests piling up and answered in any order, in every timely run: no timer gives up, step in 0..13 or 99, own link from 5, bind since CALL_FAILED from 8, handle of the last start reply from 11, address stored since that reply at 99; a sufficient condition, the exact one is `WdsExact.SafeIffFitting` |
| WdsTracked.CurrentRunsBindOwn | wds.c:464-505 | if moreover replies answer requests of the current initiation, the port is bound under the multiplexer id of this session's link |
| WdsTracked.SerialisedIsTimely | wds.c:836-930 | every serialised run is a timely one through the same states |
| WdsTracked.TwoRepliesStick | wds.c:750-800 | two ticks at step 12 and both replies: the session stands at step 14, where ticks do nothing, until the next initiation |
| WdsTracked.LateReplyGivesUp | wds.c:750-800 | a tick between the two replies: the session goes to step 100 and the timer gives up, nothing notified |
| WdsExact.StepLeavesIff | wds.c:416-800 | a reply leaves the step in 0..13 or 99 if and only if it does not count up from 13 or 99, nor down from 0 or 99 |
| WdsExact.RangeIff | wds.c:836-930 | in every tracked run the step has stayed in 0..13 or 99 throughout if and only if no reply counted it up or down from there |
| WdsExact.ReplyExact | wds.c:416-800 | a reply leaves link, bind, start, handle and address facts of a safe session intact if and only if it passes its guard on the step and the fields met |
| WdsExact.SafeIffFitting | wds.c:836-930 | in every tracked run the session has been safe throughout and no timer has given up, if and only if every reply passed its guard |
| WdsExact.TimelyFits | wds.c:836-930 | timely replies pass their guards |
| WdsExact.ProfileIff | wds.c:57-146 | in every tracked run the session's profile is the one last created or reported throughout, if and only if every answer with the IMS mask came while the scan stood at the profile asked about |
| WdsExact.TimelyStartsChosen | wds.c:613-630 | in timely runs where that holds, each outstanding start request of the initiation names the profile last created or reported |
| WdsExact.WrongProfileTaken | wds.c:180-228 | a list restarts the scan while profile 4 is asked about; 4 is reported and 7 is taken |
| WdsExact.OldAnswerTaken | wds.c:57-146 | a tracked run in which a new session takes over the profile the old one had asked about |
| WdsExact.ModifyMovesOn | wds.c:845-852 | with a profile at hand no tick creates another or stays at step 1: it asks for a modification there, and there only, and goes on |
| WdsExact.ModifyReached | wds.c:845-852 | a tracked run that comes to that |
| WdsExact.TwoBindsWait | wds.c:464-498 | two binds accepted: the session waits at step 10 for a start request never sent |
| WdsExact.ThreeBindsNotify | wds.c:464-498 | three binds accepted and a settings reply: the next tick notifies, and no start request was ever sent |
| WdsTimely.NotifiesIffComesToLink | wds.c:836-930 | on any timely course that keeps ticking, answers every outstanding request, fails finitely often and does not refuse the link: notification if and only if the session comes to SETUP_LINK |
| WdsTimely.ScanRestartsForever | wds.c:180-228 | such a course that never comes there, because each list restarts the scan |
| WdsFree.Conservation | wds.c:918-957 | under every interleaving initiations are live timers, notifying ticks and timers given up, and link requests do not exceed initiations |
| Pdc.PdcContext.ListConfigsReadyIndication | pdc.c:272-346 | one entry and one token per element, then the check |
| Pdc.PdcContext.GetConfigInfoReadyIndication | pdc.c:213-262 | the entry of the token is filled detail by detail; the counter and the check only after the last detail |
| Pdc.PdcContext.GetSelectedConfigReadyIndication | pdc.c:364-399 | ids are taken over and the check made, except on errors other than NOT_PROVISIONED |
| Pdc.PdcContext.CheckListConfigCompleted | pdc.c:190-194 | prints exactly when the counter equals the list length and the ids are loaded |
| Pdc.PdcContext.PrintConfigs | pdc.c:168-188 | needs every description; sends the set-selected requests of the table and uses up their tokens |
| Pdc.SelectsCommercial | pdc.c:134-150 | those requests are one for exactly each entry described as "ROW_Commercial", in table order, with type 1, its id and consecutive tokens |
| Pdc.SelectionsCount | pdc.c:184-186 | their number is that of the entries so described |
| Pdc.InfoRequestAt | pdc.c:308-337 | the info request for an entry names its element and carries the entry's token |
| Pdc.DetailsStored | pdc.c:247-258 | each detail is stored if it and those read before it are there, and nothing else changes |
| Pdc.PreallocatedAt | pdc.c:308-322 | entry k of the table is element k with the k-th token, undescribed |
| PdcJoin.TokensDistinct | pdc.c:314-320 | the tokens of one list are pairwise distinct from any starting value, across the 32-bit wrap |
| PdcJoin.CounterCountsDescriptions | pdc.c:240-261 | the counter is the number of described entries, so printing never meets a missing description |
| PdcJoin.PrintsOnceAndLast | pdc.c:190-194 | for every list and every order of replies, printed exactly once and by the last |
| PdcJoin.OrderLeavesNoTrace | pdc.c:241-261 | every order of replies ends in the same context, told without any order |
| PdcJoin.FinalEntry | pdc.c:247-257 | in that outcome each entry is its listed element with the size, version and description of its own reply |
| PdcJoin.SendsFinalSelection | pdc.c:168-194 | whatever the order of the replies, the batch sends the set-selected requests of the final table, with the tokens after those of the list |
| PdcJoin.SecondList | pdc.c:190-194 | after a list found complete, the next is found complete at once if and only if it is as long, and no entry has its description then |
| PdcJoin.SelectedEntries | pdc.c:184-186 | in that table an entry is selected if and only if its own reply described it as "ROW_Commercial" |
| Mcfg.McfgReader.ProcessNvConfigurationData | pdc_locate.c:332-477 | table, sizes and status of the walk over the items |
| Mcfg.SizeFieldIs | pdc_locate.c:364-419 | the 16-bit size is the true size modulo 65536 even where the stored offset has wrapped |
| Mcfg.TableEntries | pdc_locate.c:350-419 | every table entry is its item: id, type, attributes, offset and size |
| Mcfg.SizesMakeUpFile | pdc_locate.c:338-442 | front, item sizes and footer make up the file if and only if every item is shorter than 65536 bytes |
| Mcfg.OtherPartStays | pdc_locate.c:387-412 | a file item whose first part is of another kind ends right behind its item header |
| Mcfg.UnknownEnds | pdc_locate.c:443-463 | an unknown item ends the walk with -EINVAL wherever it stands, the items before it entered and counted |
| Mcfg.EncodedChain | mcfg.h:140-157 | items encoded in the layouts of mcfg.h, with a footer behind them, are such an image |
| McfgCopies.CopyFitsIff | pdc_locate.c:362-402 | what is copied of item k of an encoded image stays inside if and only if it is an NV item with at most 52 bytes of payload, or at least 65524, where the 16-bit size wraps, or a file item with names of at most 256 |
| Footer.FooterReader.AnalyzeFooter | pdc_locate.c:179-330 | -EINVAL with a cleared table, or status, sections, low bytes of the codes and repaired footer of the section loop |
| Footer.FooterReader.RepairVersion | pdc_locate.c:258-264 | the version is brought to at most 0x06000000 by whole steps |
| FooterImages.AcceptedIff | pdc_locate.c:188-218 | a footer is accepted if and only if it has 20 bytes, type 0x0A, magic 0xA1 and the letters "MCFG_TRL" in their places |
| FooterImages.FooterRoundTrip | pdc_locate.c:179-330 | a footer written out with 1 to 16 sections and any padding is accepted, status 0, exactly its sections are recorded, versions above the limit repaired if asked for, codes of its last operator section; with more sections the first 16 and -ENOSPC |
| Footer.RepairedIs | pdc_locate.c:258-264 | the version after the repair, in one formula |
| Footer.RepairKeepsLow | pdc_locate.c:260-262 | the repair keeps the low 24 bits |
| Footer.LimitIs | pdc_locate.c:222-227 | with padding in its proper range the limit is the footer length less padding and end marker |
| Footer.SectionsTile | pdc_locate.c:238-327 | on success 1 to 16 sections, each as long as its length field says, whose bytes put end to end are the footer from 20 to the final offset, repairs included |
| Footer.SectionsTileOriginal | pdc_locate.c:312-324 | without the repair those are the bytes of the footer as it came |
| Footer.CodesFromFooter | pdc_locate.c:267-272 | the codes reported are the low bytes of the two words behind the header of the last country-and-network section, whatever its length |
| Footer.CodesFromSections | pdc_locate.c:267-272 | where such sections have their six bytes, those are the section's own |
| EndToEnd.RequestOnTheWire | dcm.c:207-259 | a request packet does to the table, and starts, what the step of the combined system does |
| EndToEnd.RunsAgree | dcm.c:223-259 | in every run the table and both sessions agree with the history of requests and replies |
| EndToEnd.IndicationsNumbered | dcm.c:66-76 | in every run the n-th indication sent by finished sessions carries transaction ((n - 1) mod 99) + 1 |
| EndToEnd.StoredTextExact | wds.c:770-772 | a stored address starts the text that is read, which is that address exactly when the older text was no longer |
| EndToEnd.NotificationNamesSession | dcm.c:59-126 | the indication at FINISHED, read by the walker, carries sequence and instance of the latest activation of its slot if and only if slot 1 has been activated or those are zero |
| EndToEnd.NotificationCarriesAddress | wds.c:918-922 | its text starts with the address of the latest settings reply, is as long as the longest ever stored for the slot, and so is that address if and only if no settings reply to the slot brought a longer one; always in the first session of a slot |
| Progress.PlayedDrives | wds.c:918-957 | whatever happens to the other slot in between, the turns of a slot go through the states of its own serialised run |
| Progress.SendsIffLinkNotRefused | wds.c:416-453 | in any run of the whole system, for a slot with a live timer and finitely many failures, an indication is sent if and only if the link is not refused |
| Progress.ActivationIsAnnounced | dcm.c:53-126 | after an activation, and without a refused link, an indication is sent, and it carries the sequence and instance of that activation if and only if slot 1 has been activated by then or those are zero, and the address of the latest settings reply if and only if none before was longer as text |
| Progress.SlotZeroMisnamed | dcm.c:59-70 | a run of slot 0 alone whose indication does not carry the sequence asked for |
| Progress.ShorterAddressMisread | wds.c:770-772 | a run of two sessions of a slot in which the second announces another text than its address |
| Progress.AnnouncedWithoutNetwork | wds.c:573-600 | a run that announces an address with no network started and no packet handle |

## Left out

- libqmi, libqrtr, the GLib loop, sockets and files: replies are events, packets are byte buffers.
- The client hash table and `sendto` fan-out of dcm.c: only the bytes are modelled.
- Library calls: `inet_ntop`, `inet_pton` and `strlen` stand for dotted-decimal notation and the first zero byte, on a little-endian host.
- QmiUtil.GetTlvOffsetById: requires a packet the C loop is left on and whose item headers lie in the buffer; on the others there is no return value to state.
- QmiUtil.DidQmiOpFail: requires the same and, where a result item is found, its seven bytes in the buffer.
- Dcm.QrtrServer.HandleIncomingRequest: slots of 2 and more, and packets whose lookups are not left or lead outside the buffer (exactly those of `DcmLookups.ActivationReadableIff`), are excluded; what the C code then reads or writes is memory of other objects.
- Wds.WdsClient.GetCurrentSettingsReady: a reply without output, or with output and an error result, counts as one without mask and address; the C code goes on with a freed error there, so such a reply is not cleanly recovered from. MTU, gateway and family are only printed.
- EndToEnd and Progress: both slots are serialised sessions; runs with requests piling up are treated for one session at a time, in `WdsTracked.dfy`, `WdsExact.dfy`, `WdsTimely.dfy` and `WdsFree.dfy`.
- Overlapping profile scans in free and tracked runs: a settings reply needs a scan in progress, because the C code would read freed memory otherwise.
- Pdc.PdcContext.GetSelectedConfigReadyIndication: a successful reply before the list is excluded; the C code dereferences a null list. The context counts as zero-initialised.
- Failures to put a PDC request together, which cut a list short: not modelled, requests are always sent.
- Pdc activate requests, which follow the answers to set-selected requests, and the tokens they take: not modelled. Printed status texts neither.
- Mcfg.McfgReader.ProcessNvConfigurationData: the copies into the 64-byte blobs and the file name array are not part of the method; long items overrun them, exactly those that fail `McfgCopies.CopyFitsIff`. Reads outside the image are excluded, and the footer analysis it calls, which gets the footer size cut to 16 bits, is proved apart.
- Footer.FooterReader.AnalyzeFooter: sections longer than 64 bytes and reads outside the footer are excluded; the profile name is not modelled, nor are the printed texts, of which that for an unknown section goes through an uninitialised pointer.
- ELF and program header checks, name tables, debug dumps, IPv6 steps 14 to 17 beyond doing nothing, and the other services (dms, imsa, imss, nas, mfs).
