# Verified core of moor

moor is a server for shared, programmable worlds written in the MOO language. This project models seven parts of it
in Dafny and proves what each is for, over every input, run or reachable state.

- **Variable scopes of the compiler** (`VarScope`, `ScopeLookup`, `ScopeBinding`, `ScopeRuns`, `CompilerScope`). A name
  means the first variable of that name in the innermost scope that holds one, and right after a declaration the
  variable declared. Any run of scope operations that never pops the outermost scope keeps one invariant. From it:
  `bind` never hits its duplicate panic, is one-to-one, and numbers each scope's variables 0 to n-1 in declaration order; the width returned when a
  scope is popped is the slot count `bind` gives it however the run goes on; a block leaves the names outside it as
  they were.
- **The resumable event stream of the web client** (`SseTrace`, `SseTransport`, `SseInvariant`, `SseSystem`,
  `SseProgress`, `SseSession`). A session against a daemon that keeps events until acknowledged, with every interleaving of
  replies, frames, timers, failures, closes and reconnects. Applied events are exactly 1..n in order, nothing
  unapplied is released, no wake-up is lost, commands and prompts go in turn, every message is accounted for. And it
  gets there: frames in turn are applied, any number of them, on a first connection and after a reconnection.
- **The event-stream reader** (`SseReader`, `SseFrames`, `SseDialects`). Reading does not depend on how the text was cut
  into chunks exactly when the oversize check cannot fire early. Whatever the line ends, comments, unknown fields and
  spaces of a stream, it reads as what its lines mean.
- **The lexer and the scanners that must agree with it** (`Lexer`, `LexerShape`, `LexerSpelling`, `LexerForms`,
  `SourceLexer`, `TextScanner`, `ScannerAgreement`, `VerbBody`, `BodyTokens`, `StatementTerminator`, `QuoteAgreement`, `LexerWindow`, `LexerPrefix`,
  `SplicedLiteral`, `SplicedStatements`). Tokens tile the source, and each is spelled as a table
  given apart says its kind is; what the table says is a token wherever no longer one stands. Two scanners, for verb bodies and for statement
  terminators, give every character the role the lexer gives it exactly when certain tokens do not occur. A verb body
  ends at the first end keyword in code; in a source the two agree on, its tokens are those of the source and no string
  or comment in it is left open. A value spliced into code becomes one string token and changes no other exactly when
  the code before it ends where a token may start.
- **Literals** (`Numerals`, `ObjectIds`, `JsNumbers`, `JsShown`, `Literal`, `LiteralGrammar`, `LiteralScalars`,
  `LiteralSpelling`, `LiteralRoundTrip`, `LiteralParser`, `QuotedStrings`). The object-definition parser undoes the web client's literal printer exactly
  up to 64 nested containers and for integers that are the preferred decimal of their double-precision number: most
  zeros at the end, then nearest to the number, then even. Any spelling of a string by its escapes reads as the string,
  and what the server writes for a string reads back as that string, with nothing in it that cannot be seen.
- **Commands of the MCP server** (`CommandSession`, `CommandInvariant`, `CommandRuns`, `CommandResults`,
  `CommandSettlement`, `CharacterSession`). One command at a time, each settled once: by its outcome as that says, by
  anything else as an error, with exactly the events its socket brought while it was registered. Which command's
  outcome settles it is proved in both directions, for every step from every reachable safe state.
- **Program fingerprints** (`Fnv`, `Fingerprint`, `FnvReference`). The hash is FNV-1a, by its bits and by published
  values. The bytes hashed determine the builtins a program calls, with their
  names and flags, whatever their order; and exposing or hiding one of them always changes the hash.

Code that changes fields or loops is written as classes, methods and loops, each proved against a function; the
theorems are about those functions. Interleaved code is a state machine whose steps are the stretches that run
without interruption.

## Where the code does not do what its comments say

Each of these is kept as the code has it, with an example and the exact condition.

- `OpenMeansAliveExactly`: nothing looks at the abort signal between `sse.ts:188` and `sse.ts:197`. A transport
  closed when the reply to its stream request is already there, or whose fetcher does not honour the signal that
  `sse.ts:146` passes, reports itself open (`ClosedThenOpen`). It accepts messages that it never sends
  (`LateOpenStrands`).
- `ChunkingIndependentExactly`: the size check on the unread buffer counts a separator that has not fully arrived,
  so a block close to the limit is refused or read depending on the chunks (`LimitBlockExample`).
- `ScannerMatchesLexerExactly`: a carriage return ends a line comment for the lexer and not for the verb-body
  scanner (`CarriageReturnExample`); a broken binary literal ends for the lexer, and not for the scanner, at the end
  of its line or at an escaped quote (`BrokenBinaryExample`).
- `TerminatorIsSemi`: a semicolon inside a comment counts as a statement terminator (`CommentedSemicolon`).
  `AlignedExactly` and `QuoteScanMatchesLexerExactly`: a quote inside a comment can hide a semicolon
  (`QuoteHidesSemi`). Without comments and misread binary literals it is right (`PlainTerminatorIsSemi`).
- `SplicedExactly`: an escaped value between quotes is a string of its own only where a token may start: not inside
  an open string or comment, and not after a lone `b`, which makes the quotes a binary literal.
- `ValuesAgreeExactly`: where the scan of the code before it ends inside a string, the value can decide whether the code
  is taken for statements, unless a semicolon elsewhere decides. The string may be open (`OpenStringLeaks`), or be a
  quote in a comment, where the lexer is in code (`CommentedQuoteLeaks`).
- `LiteralReadsBackExactly`: `moor-var.ts:52-58` prints integers through `Number`. From 2^53+1 on they may come back as
  neighbours or not at all (`IntegersMisread`). Up to 2^54 the odd ones do (`EvenShownExactly`); further on some that
  are numbers do too (`NumberNotShown`).
- `LateOutcomeExactly`: `moor-service.ts:281-283` says that a late completion cannot be mistaken for the next
  command's result. It can, after exactly three kinds of step. A task that suspends settles its command and sends its
  last outcome later; a send that fails with an empty message leaves the socket in use (`LateOutcomeExample`). And
  outcomes go to connections, not sockets: the next socket may attach to the connection of the one discarded
  (`web_host.rs:837-912`), which still owes the outcome (`ReattachedExample`).
- `UuidPrintsBackExactly`: a first group of more than 22 bits is read by the client and printed as another
  identifier (`WideGroupLosesBits`).

## Model

| member | source | states |
|---|---|---|
| VarScope.FirstNamedFinds | crates/compiler/src/var_scope.rs:260-270 | a lookup gives the first variable of that name in the scope, or there is none |
| VarScope.StepKeepsInv | crates/compiler/src/var_scope.rs:140-333 | every scope operation keeps the invariant: live ids grow along the stack, a scope id has one depth, visible variables are the declared ones |
| VarScope.RunKeepsInv | crates/compiler/src/var_scope.rs:140-333 | so does every run that never pops the outermost scope, below 2^16 variables and scope ids |
| ScopeLookup.ResolveExactly | crates/compiler/src/var_scope.rs:260-270 | lookup gives a variable exactly when it is the first of that name in the innermost scope that holds one, and none exactly when no scope does |
| ScopeLookup.StepAdds | crates/compiler/src/var_scope.rs:83-309 | which operation adds a variable, from what is visible: its id, scope, depth, flags and the one scope that shows it; otherwise nothing changes, and the refusals |
| ScopeLookup.DeclaredResolves | crates/compiler/src/var_scope.rs:83-309 | right after any operation that hands a named variable back the name means that variable, and every other name means what it did |
| ScopeLookup.RegistersDiffer | crates/compiler/src/var_scope.rs:311-333 | no two registers of a run have the same number |
| ScopeBinding.SortStable | crates/compiler/src/var_scope.rs:351-379 | sorting by depth keeps each scope's declarations in declaration order |
| ScopeBinding.BindFirstCorrect | crates/compiler/src/var_scope.rs:351-379 | after any prefix of the sorted declarations, the map built so far gives each its scope and its rank in that scope |
| ScopeBinding.BindIsDense | crates/compiler/src/var_scope.rs:351-379 | binding succeeds, is one-to-one onto the names, and each scope's offsets are 0..n-1 in declaration order |
| ScopeBinding.EveryRunBinds | crates/compiler/src/var_scope.rs:351-379 | after every legal run binding never hits the duplicate panic |
| ScopeRuns.ExitWidthIsFinal | crates/compiler/src/var_scope.rs:146-155 | the width returned by popping a scope is the slot count `bind` gives it, however the run goes on |
| ScopeRuns.GlobalWidthIsFinal | crates/compiler/src/var_scope.rs:351-379 | the global width is the final slot count of scope 0 |
| ScopeRuns.VariableOwnSlot | crates/compiler/src/var_scope.rs:351-379 | two variables of a run never share a slot |
| ScopeRuns.InnerVariableOwnSlot | crates/compiler/src/var_scope.rs:191-217 | a comprehension variable stored in the surrounding scope shares its slot with no other variable |
| ScopeRuns.BlockRestoresNames | crates/compiler/src/var_scope.rs:140-155 | a balanced block leaves every name that resolved before it resolving as before, and its own names stop resolving to its variables |
| CompilerScope.Scope.Default | crates/compiler/src/var_scope.rs:59-69 | the empty scope with one level |
| CompilerScope.Scope.WithGlobals | crates/compiler/src/var_scope.rs:72-80 | the predefined globals are declared in order in scope 0 |
| CompilerScope.Scope.EnterNewScope | crates/compiler/src/var_scope.rs:140-144 | pushes a scope with a new id, as the operation's function says |
| CompilerScope.Scope.ExitScope | crates/compiler/src/var_scope.rs:148-155 | pops it and returns the number of variables stored in it |
| CompilerScope.Scope.CountStored | crates/compiler/src/var_scope.rs:148-155 | the loop counts the declarations of one scope |
| CompilerScope.Scope.FindName | crates/compiler/src/var_scope.rs:260-270 | the variable the name means: the first of that name in the innermost scope that holds one; none exactly when no scope does |
| CompilerScope.Scope.FindInScope | crates/compiler/src/var_scope.rs:260-270 | the first variable of a name in one scope |
| CompilerScope.Scope.FindOrAddNameGlobal | crates/compiler/src/var_scope.rs:83-103 | finds a name or declares it in scope 0 |
| CompilerScope.Scope.FindOrAddNameScoped | crates/compiler/src/var_scope.rs:106-123 | finds a name or declares it in the current scope |
| CompilerScope.Scope.DeclareRegister | crates/compiler/src/var_scope.rs:157-161 | a fresh register stored in scope 0 |
| CompilerScope.Scope.Declare | crates/compiler/src/var_scope.rs:227-241 | declares in the current scope; a new declaration of a name found there is refused |
| CompilerScope.Scope.DeclareOrUseName | crates/compiler/src/var_scope.rs:163-173 | declares in the current scope or reuses what is there |
| CompilerScope.Scope.DeclareNameForInnerScope | crates/compiler/src/var_scope.rs:191-217 | visible in the inner scope, stored in the one around it |
| CompilerScope.Scope.NewUnbound | crates/compiler/src/var_scope.rs:273-309 | pushes one declaration and makes it visible |
| CompilerScope.Scope.BindNames | crates/compiler/src/var_scope.rs:351-379 | the two loops compute the binding function |
| CompilerScope.Scope.AssignSlots | crates/compiler/src/var_scope.rs:351-379 | offsets restart when the scope changes |
| CompilerScope.Scope.GlobalWidth | crates/compiler/src/var_scope.rs:351-379 | the number of names bound in scope 0 |
| SseTrace.AppliedExactlyOnce | clients/web-sdk/src/sse.ts:222-230 | in any justified trace the events applied of a stream are 1..n, each once, in order |
| SseTrace.CommandsAlternate | clients/web-sdk/src/sse.ts:303-326 | between two command posts on one stream a task outcome was applied |
| SseTrace.PromptsAnsweredInOrder | clients/web-sdk/src/sse.ts:304-325 | prompts answered, then those open, are the prompts shown |
| SseTrace.AcksAreApplied | clients/web-sdk/src/sse.ts:269-286 | an acknowledgement never names an event that was not applied |
| SseTrace.UnadoptedUnapplied | clients/web-sdk/src/sse.ts:179-186 | a stream never adopted has no applied event |
| SseSystem.WorldKept | clients/web-sdk/src/sse.ts:155-366 | every step of session, daemon and owner keeps the invariant |
| SseSystem.RunKept | clients/web-sdk/src/sse.ts:155-366 | so does every run |
| SseSystem.DeliveredExactlyOnce | clients/web-sdk/src/sse.ts:207-235 | in every run the applied events of a stream are 1..n and the cursor is n |
| SseSystem.DispatchedBeforeApplied | clients/web-sdk/src/sse.ts:225-230 | every applied event was dispatched to the application before |
| SseSystem.NothingUnappliedReleased | clients/web-sdk/src/sse.ts:258-286 | the daemon's acknowledged sequence never passes the applied cursor |
| SseSystem.NothingLeftWaiting | clients/web-sdk/src/sse.ts:258-330 | while open, an unacknowledged prefix has its timer or request, and an idle queue holds nothing that could be sent |
| SseSystem.MessagesAccounted | clients/web-sdk/src/sse.ts:288-330 | actions, and other messages, leave the queue once each in the order accepted |
| SseSystem.CommandsAndPromptsInTurn | clients/web-sdk/src/sse.ts:299-330 | commands wait for the outcome before; prompts are answered oldest first and never by an action |
| SseSystem.OpenMeansAliveExactly | clients/web-sdk/src/sse.ts:188-206 | no open transport is aborted along a run exactly when no stream reply comes after the abort |
| SseSystem.ClosedThenOpen | clients/web-sdk/src/sse.ts:188-197 | a run that closes a transport and then, a reply coming all the same, finds it open |
| SseSystem.LateOpenStrands | clients/web-sdk/src/sse.ts:288-303 | a message sent to it is accepted and never sent |
| SseProgress.InTurnDispatches | clients/web-sdk/src/sse.ts:219-227 | the frame after the cursor is handed to the application, and nothing else changes |
| SseProgress.HandledApplies | clients/web-sdk/src/sse.ts:227-232 | once handled, an event that can be applied is: the applied events are one longer and the cursor one further |
| SseProgress.HandledRefuses | clients/web-sdk/src/sse.ts:237-255 | a prompt without an id and a switch without a token end the connection, the cursor where it was |
| SseProgress.HandledControls | clients/web-sdk/src/sse.ts:237-246 | a prompt joins the open ones, and nothing else changes them |
| SseProgress.HeartbeatChangesNothing | clients/web-sdk/src/sse.ts:211-212 | a heartbeat leaves the session as it was |
| SseProgress.EphemeralLeavesNoTrace | clients/web-sdk/src/sse.ts:213-218 | an ephemeral frame passes through the application and leaves the session as it was |
| SseProgress.StreamLost | clients/web-sdk/src/sse.ts:209-224 | a reset or a gap delivers nothing; handling it closes the transport and forgets the stream |
| SseProgress.ConnectionBroken | clients/web-sdk/src/sse.ts:210-223 | a retry, an unknown or garbled frame and a wrong id deliver nothing; handling it closes the transport and keeps stream and cursor |
| SseProgress.NoHandlerBreaks | clients/web-sdk/src/sse.ts:226-226 | without an application the next event stays the next event |
| SseProgress.AdoptsNewStream | clients/web-sdk/src/sse.ts:179-187 | a stream never held is adopted from its beginning |
| SseProgress.ContinuesHeldStream | clients/web-sdk/src/sse.ts:172-187 | the held stream goes on at its cursor |
| SseProgress.GapAtAttach | clients/web-sdk/src/sse.ts:172-187 | when events it has not applied are gone, the stream is given up |
| SseProgress.DeliversAll | clients/web-sdk/src/sse.ts:207-233 | any number of frames in turn is applied, every one, and the cursor is at the last |
| SseProgress.FirstConnection | clients/web-sdk/src/sse.ts:155-233 | from nothing: the stream is adopted and its first k events are applied |
| SseProgress.Reconnection | clients/web-sdk/src/sse.ts:155-233 | from any reachable closed state: the stream goes on after the last applied event, none twice and none left out |
| SseProgress.AcknowledgementRound | clients/web-sdk/src/sse.ts:263-280 | an acknowledgement names the cursor |
| SseProgress.AcknowledgementReturns | clients/web-sdk/src/sse.ts:281-285 | its reply moves the acknowledged sequence to what it named, and another is armed exactly when the cursor has moved on |
| SseProgress.SendRefuses | clients/web-sdk/src/sse.ts:288-294 | when a message is refused or ignored, and that this changes nothing |
| SseProgress.SendPosts | clients/web-sdk/src/sse.ts:288-325 | on an idle transport a message that may go out does, as the answer to the oldest prompt or as a command |
| SseProgress.SendQueues | clients/web-sdk/src/sse.ts:294-302 | while a request is out, a message waits at the end of the queue |
| SseProgress.PumpDropsOnlyBinary | clients/web-sdk/src/sse.ts:303-313 | while the transport lives only a binary message that is neither action nor answer is dropped, with an error |
| SseProgress.OutcomeReleasesNext | clients/web-sdk/src/sse.ts:244-246 | the outcome of the task at hand lets the next waiting command out |
| SseProgress.AnswerReleasesNext | clients/web-sdk/src/sse.ts:303-326 | an answer that comes back closes its prompt, and the next prompt takes the next waiting answer |
| SseSession.SseSessionTransport.constructor | clients/web-sdk/src/sse.ts:122-140 | a new transport over a resume state the invariant holds of |
| SseSession.SseSessionTransport.Shut | clients/web-sdk/src/sse.ts:352-366 | closes once; drops timer and queue |
| SseSession.SseSessionTransport.Close | clients/web-sdk/src/sse.ts:352-366 | the owner's close; the invariant holds after it, and the cursor counts the applied events, the daemon's first ones |
| SseSession.SseSessionTransport.Fail | clients/web-sdk/src/sse.ts:332-350 | an expired stream resets the resume state; then closes |
| SseSession.SseSessionTransport.HandleFailure | clients/web-sdk/src/sse.ts:332-350 | the handler of one rejected promise; the invariant holds after it, and the cursor counts the applied events, the daemon's first ones |
| SseSession.SseSessionTransport.ScheduleAcknowledgement | clients/web-sdk/src/sse.ts:258-267 | arms the timer only if something applied is unacknowledged |
| SseSession.SseSessionTransport.Acknowledge | clients/web-sdk/src/sse.ts:269-286 | at most one request at a time, naming the cursor |
| SseSession.SseSessionTransport.AckTimerFires | clients/web-sdk/src/sse.ts:263-266 | the timer clears itself and acknowledges; keeps the invariant and the delivery guarantee |
| SseSession.SseSessionTransport.AckSettled | clients/web-sdk/src/sse.ts:281-285 | a reply moves the acknowledged sequence; either way the next is scheduled; keeps the invariant and the delivery guarantee |
| SseSession.SseSessionTransport.Send | clients/web-sdk/src/sse.ts:288-297 | refuses, ignores control bytes, or queues and pumps; keeps the invariant and the delivery guarantee |
| SseSession.SseSessionTransport.Pump | clients/web-sdk/src/sse.ts:299-302 | one pump at a time |
| SseSession.SseSessionTransport.PumpLoop | clients/web-sdk/src/sse.ts:303-330 | runs to the next post or stops; matches the queue function |
| SseSession.SseSessionTransport.FindNonAction | clients/web-sdk/src/sse.ts:307-308 | the first message that is no action |
| SseSession.SseSessionTransport.PostSettled | clients/web-sdk/src/sse.ts:325-329 | an answered prompt is removed; the loop goes on or the failure is raised; keeps the invariant and the delivery guarantee |
| SseSession.SseSessionTransport.AttachReplied | clients/web-sdk/src/sse.ts:172-187 | adopts, continues or refuses the stream the reply names; keeps the invariant and the delivery guarantee |
| SseSession.SseSessionTransport.StreamOpened | clients/web-sdk/src/sse.ts:196-206 | opens and schedules an acknowledgement; keeps the invariant and the delivery guarantee |
| SseSession.SseSessionTransport.FrameArrived | clients/web-sdk/src/sse.ts:207-227 | each kind of frame as the transport's function has it, of which SseProgress says what it delivers, ignores and gives up; keeps the invariant and the delivery guarantee |
| SseSession.SseSessionTransport.ApplyControl | clients/web-sdk/src/sse.ts:237-255 | a prompt is queued, an outcome ends the pending task |
| SseSession.SseSessionTransport.DispatchDone | clients/web-sdk/src/sse.ts:228-229 | after dispatch the event is applied, unless aborted; keeps the invariant and the delivery guarantee |
| SseSession.SseSessionTransport.Advance | clients/web-sdk/src/sse.ts:230-232 | the cursor moves and the event is recorded as applied |
| SseReader.FirstBlockExtends | clients/web-sdk/src/sse.ts:63-65 | the first block of a text is the first block of any longer text |
| SseReader.DrainExtends | clients/web-sdk/src/sse.ts:62-80 | draining a buffer and then more is draining both at once |
| SseReader.CleanReadsAtOnce | clients/web-sdk/src/sse.ts:57-82 | clean text reads the same from any chunks |
| SseReader.UncleanDiffers | clients/web-sdk/src/sse.ts:66-81 | text that is not clean has a cut that makes a difference |
| SseReader.ChunkingIndependentExactly | clients/web-sdk/src/sse.ts:53-87 | reading does not depend on the chunks exactly when every block with all but one character of its separator fits the limit |
| SseReader.LimitBlockExample | clients/web-sdk/src/sse.ts:66-81 | a block of exactly the limit is read in one piece and given up on when its last line feed comes alone |
| SseReader.UncleanExample | clients/web-sdk/src/sse.ts:66-81 | there is such a text |
| SseFrames.ReadBlock | clients/web-sdk/src/sse.ts:67-79 | the loop over lines computes the block's frame |
| SseFrames.TakeBlocks | clients/web-sdk/src/sse.ts:62-80 | the inner loop takes every complete block |
| SseFrames.ReadSse | clients/web-sdk/src/sse.ts:53-87 | the outer loop yields the frames of the reading function |
| SseFrames.ParseWritten | clients/web-sdk/src/sse.ts:67-79 | a frame, written by a writer of this project's own, is read back |
| SseFrames.WrittenFramesReadBack | clients/web-sdk/src/sse.ts:53-87 | frames, written by that writer, are read back from any chunks of their text |
| SseDialects.LineTaken | clients/web-sdk/src/sse.ts:70-78 | a comment, a field with or without a space, a bare name and an unknown field each do what they mean |
| SseDialects.BlockMeans | clients/web-sdk/src/sse.ts:67-79 | a block with any mix of LF and CRLF reads as its lines mean |
| SseDialects.AnyStreamReads | clients/web-sdk/src/sse.ts:53-87 | so does a stream of such blocks with any blank lines between them, from any chunks |
| Lexer.LexTiles | crates/compiler/src/lexer.rs:56-285 | tokens are contiguous from 0 to the end and non-empty but for the one final Eof |
| Lexer.LexKeepsText | crates/compiler/src/lexer.rs:56-285 | joining the tokens' texts gives the source back |
| LexerShape.TokenAtShape | crates/compiler/src/lexer.rs:56-271 | every token is a comment, string or binary literal with its own end, or holds nothing that could start one |
| LexerShape.LexFromShaped | crates/compiler/src/lexer.rs:56-285 | so is every token of a text |
| LexerSpelling.SameWordIs | crates/compiler/src/lexer.rs:663-766 | two words are the same when they are character for character, but for the case of ASCII letters |
| LexerSpelling.KeywordExactly | crates/compiler/src/lexer.rs:663-746 | a word is a keyword of a kind exactly when it is that kind's spelling in any case |
| LexerSpelling.WordExactly | crates/compiler/src/lexer.rs:294-319 | which words are keywords, type names, error names and identifiers |
| LexerForms.OperatorIsToken | crates/compiler/src/lexer.rs:82-263 | an operator's spelling at a token's start, that no longer one extends and that starts no number or comment, is a token of its kind |
| LexerForms.KeywordIsToken | crates/compiler/src/lexer.rs:287-319 | a keyword in any case that no longer identifier extends is a token of its kind |
| LexerForms.TokenSpelled | crates/compiler/src/lexer.rs:56-271 | the spelling law: a token of a fixed text has that text, and literals and names have the form of their kind |
| LexerForms.LexSpelled | crates/compiler/src/lexer.rs:56-285 | so has every token of a text |
| LexerForms.NumberExactly | crates/compiler/src/lexer.rs:482-554 | a token is a number exactly where one starts, whole exactly when all after the sign is digits, floating-point exactly when it has a point or an exponent |
| LexerForms.ObjectExactly | crates/compiler/src/lexer.rs:435-480 | a hash is an object exactly when a number or one of the two unique forms follows, and otherwise stands for itself |
| LexerForms.DigitsEndIs | crates/compiler/src/lexer.rs:607-623 | the longest stretch of digits and of underscores before digits |
| SourceLexer.Lexer.constructor | crates/compiler/src/lexer.rs:47-54 | starts at 0 with no token |
| SourceLexer.Lexer.Lex | crates/compiler/src/lexer.rs:56-278 | the main loop pushes exactly the tokens of the source, each spelled as its kind says |
| SourceLexer.Lexer.PushToken | crates/compiler/src/lexer.rs:280-285 | appends the token; trivia and errors do not count as previous token |
| SourceLexer.Lexer.LexToken | crates/compiler/src/lexer.rs:57-81 | the token at the position, by its first characters, spelled as its kind says |
| SourceLexer.Lexer.LexIdentLike | crates/compiler/src/lexer.rs:287-319 | keywords, type constants, error literals, names and qualified names |
| SourceLexer.Lexer.LexString | crates/compiler/src/lexer.rs:321-367 | the string's end under its escapes, or unterminated |
| SourceLexer.Lexer.LexBinaryLiteral | crates/compiler/src/lexer.rs:381-412 | the literal's end, or the error's |
| SourceLexer.Lexer.LexSymbolOrApostrophe | crates/compiler/src/lexer.rs:414-433 | a symbol or a lone apostrophe |
| SourceLexer.Lexer.LexObjectOrHash | crates/compiler/src/lexer.rs:435-462 | anonymous, unique and numbered objects, or a lone hash |
| SourceLexer.Lexer.ConsumeUuidBody | crates/compiler/src/lexer.rs:464-480 | six and ten hexadecimal digits, or no move |
| SourceLexer.Lexer.LexNumber | crates/compiler/src/lexer.rs:498-533 | signs, leading dots, ranges and fractions |
| SourceLexer.Lexer.ConsumeExponent | crates/compiler/src/lexer.rs:535-554 | an exponent, or no move |
| SourceLexer.Lexer.LexBlockComment | crates/compiler/src/lexer.rs:556-568 | to the first closing mark, or unterminated |
| SourceLexer.Lexer.ConsumeNumberDigits | crates/compiler/src/lexer.rs:607-623 | digits with underscores before digits |
| SourceLexer.Lexer.ConsumeHexDigits | crates/compiler/src/lexer.rs:625-634 | up to that many hexadecimal digits, and whether all were there |
| TextScanner.StringEndsAgree | crates/compiler/src/lexer.rs:321-379 | escapes of any length end a string where one-character escapes do |
| ScannerAgreement.TokenScanned | crates/compiler/src/objdef_literal.rs:1345-1406 | the scanner takes a clean token as the lexer does, role by role |
| ScannerAgreement.OppositeDiffers | crates/compiler/src/objdef_literal.rs:1345-1406 | once the two disagree about being in a string they never read the rest alike |
| ScannerAgreement.MisreadExactly | crates/compiler/src/lexer.rs:381-412 | a binary literal ends elsewhere than the scanner's string exactly when it ends at a line end, or at a quote after an odd number of backslashes |
| ScannerAgreement.ScannerMatchesLexerExactly | crates/compiler/src/objdef_literal.rs:1306-1409 | same role for every character and same state at the end, exactly when no line comment runs into a carriage return and no binary literal ends in one of those two ways |
| ScannerAgreement.OrdinaryReadAlike | crates/compiler/src/objdef_literal.rs:1306-1409 | so they agree on every source without carriage returns and broken binary literals |
| ScannerAgreement.CarriageReturnExample | crates/compiler/src/lexer.rs:598-605 | a text with a carriage return that they read differently |
| ScannerAgreement.BrokenBinaryExample | crates/compiler/src/lexer.rs:381-412 | a broken binary literal that they read differently |
| VerbBody.FindVerbBody | crates/compiler/src/objdef_literal.rs:1306-1409 | finds the first line start that is code to the scanner and carries the end keyword, or there is none |
| VerbBody.EndIsLexed | crates/compiler/src/objdef_literal.rs:1306-1409 | in clean text these are the line starts that are code to the lexer |
| VerbBody.MatchKeyword | crates/compiler/src/objdef_literal.rs:1322-1343 | the keyword, in any case, whole, after indentation |
| VerbBody.KeywordAtExactly | crates/compiler/src/objdef_literal.rs:1322-1343 | a line carries the keyword exactly when it is written there whole, in any case, after nothing but indentation |
| BodyTokens.TokensOfBody | crates/compiler/src/objdef_literal.rs:1339-1343 | a body that ends with a line, the part before its last line end being closed, has the tokens of the text up to it |
| BodyTokens.BodyLexes | crates/compiler/src/objdef_literal.rs:1339-1343 | in a clean source the body's roles are those the lexer gives it alone, and it ends in code |
| BodyTokens.BodyIsTerminated | crates/compiler/src/objdef_literal.rs:1339-1343 | in a clean source the body lexes with no unterminated string or comment |
| BodyTokens.OrdinaryBodyIsTerminated | crates/compiler/src/objdef_literal.rs:1339-1343 | so it does in every source without carriage returns and malformed binary literals |
| StatementTerminator.HasStatementTerminator | clients/moor-web-mcp/src/moor-service.ts:112-123 | true exactly when a semicolon stands outside the quoted strings |
| QuoteAgreement.QuoteScanMatchesLexerExactly | clients/moor-web-mcp/src/moor-service.ts:111-123 | the scan gives every character the lexer's role, comments being code, and ends in a string as the lexer does, exactly when no comment holds a quote and no binary literal is misread |
| QuoteAgreement.AlignedExactly | clients/moor-web-mcp/src/moor-service.ts:112-123 | the scan is in code at every token outside comments exactly when, run from code with its escapes through each misread binary literal and each run of comments, it is in code again at the next such token |
| QuoteAgreement.TerminatorIsSemi | clients/moor-web-mcp/src/moor-service.ts:111-123 | then it is true exactly when the lexer yields a semicolon or a comment holds one the scan reads as code, and right exactly when there is a semicolon or no such comment |
| QuoteAgreement.PlainTerminatorIsSemi | clients/moor-web-mcp/src/moor-service.ts:111-123 | for code without comments and misread binary literals it is true exactly when the lexer yields a semicolon |
| QuoteAgreement.QuoteHidesSemi | clients/moor-web-mcp/src/moor-service.ts:112-123 | a comment whose quote hides the semicolon after it |
| StatementTerminator.CommentedSemicolon | clients/moor-web-mcp/src/moor-service.ts:111-123 | a comment for which it is true though there is none |
| StatementTerminator.EscapesEachChar | clients/moor-web-mcp/src/moor-service.ts:107-109 | the two replacing passes escape each character once |
| LexerPrefix.TokenWindow | crates/compiler/src/lexer.rs:56-285 | a token that is closed is the same token of any text that goes on with a quote or a line end, or of the end of any text |
| LexerPrefix.LexPrefix | crates/compiler/src/lexer.rs:56-285 | code that ends closed before a quote or a line end keeps its tokens there |
| SplicedLiteral.SplicedIsOneToken | clients/moor-web-mcp/src/moor-service.ts:96-98 | where the code before ends in code and not in a lone b, the tokens of the whole are those before, one string token, and those of the code after read after a string |
| SplicedLiteral.SplicedExactly | clients/moor-web-mcp/src/moor-service.ts:96-98 | the value is a string token of its own exactly there |
| SplicedStatements.SplicedTerminator | clients/moor-web-mcp/src/moor-service.ts:107-123 | unless the scan of the code before ends inside a string, it finds a terminator exactly if there is one before or after the literal |
| SplicedStatements.ValuesAgreeExactly | clients/moor-web-mcp/src/moor-service.ts:107-123 | no two values make a difference to it exactly when the scan of the code before does not end inside a string, or finds a terminator there, or finds one in the code after both as code and as in a string |
| SplicedStatements.OpenStringLeaks | clients/moor-web-mcp/src/moor-service.ts:107-123 | after a lone quote two values make a difference |
| SplicedStatements.CommentedQuoteLeaks | clients/moor-web-mcp/src/moor-service.ts:107-123 | and after a comment with a quote, where the lexer is in code |
| Numerals.IntReadsBack | crates/compiler/src/objdef_literal.rs:445-455 | a printed integer reads back exactly within the bounds |
| ObjectIds.UuidReadsBack | clients/web-sdk/src/curie.ts:45-70 | the client reads back every 62-bit identifier it prints |
| ObjectIds.ServerReadsBack | crates/var/src/obj.rs:398-416 | and so does the server |
| ObjectIds.UuidPrintsBackExactly | clients/web-sdk/src/curie.ts:45-70 | printing what was read gives the text in upper case exactly when the first group has at most 22 bits |
| ObjectIds.WideGroupLosesBits | clients/web-sdk/src/curie.ts:45-70 | a wider group prints as its low 22 bits |
| LiteralSpelling.UuidIsNumber | clients/web-sdk/src/curie.ts:45-70 | an identifier is one number in hexadecimal with a dash after the sixth digit |
| JsNumbers.SafeShown | clients/web-sdk/src/moor-var.ts:52-58 | every integer below 2^53 in size is shown as it is |
| JsNumbers.OddNeverShown | clients/web-sdk/src/moor-var.ts:52-58 | no odd integer beyond is |
| JsNumbers.FirstShownWrong | clients/web-sdk/src/moor-var.ts:317-320 | 2^53+1 is shown as 2^53 |
| JsNumbers.LargestShown | clients/web-sdk/src/moor-var.ts:317-320 | 2^63-1 is shown as 9223372036854776000 |
| JsShown.ShownIsChosen | clients/web-sdk/src/moor-var.ts:317-320 | what is shown reads as the same number and is preferred to every other decimal that does: most zeros at the end, then nearest, then even |
| JsShown.ChosenOnce | clients/web-sdk/src/moor-var.ts:317-320 | there is one such decimal |
| JsShown.ShownExactly | clients/web-sdk/src/moor-var.ts:317-320 | an integer of 64 bits is shown as it is exactly when it is preferred to every other integer that is the same number |
| JsShown.EvenShownExactly | clients/web-sdk/src/moor-var.ts:52-58 | from 2^53 to 2^54 in size exactly the even integers are |
| JsShown.NumberNotShown | clients/web-sdk/src/moor-var.ts:317-320 | 2^54+8 is a number and is not |
| Literal.ToLiteral | clients/web-sdk/src/moor-var.ts:312-379 | the recursive printer with its collecting loops prints the value with its integers rounded to doubles and written with the digits JsShown describes |
| LiteralScalars.ScalarReads | crates/compiler/src/objdef_literal.rs:1704-1749 | every printed scalar reads back before any delimiter, but for an integer beyond 64 bits, which is refused |
| LiteralScalars.UnquoteEscaped | crates/common/src/util/mod.rs:146-257 | unquoting undoes escaping |
| LiteralScalars.QuotedIsScan | crates/compiler/src/objdef_literal.rs:321-339 | a string ends where the verb-body scanner leaves it |
| QuotedStrings.AnySpellingUnquotes | crates/common/src/util/mod.rs:146-257 | however each character is spelled, as itself or by any of its escapes, unquoting gives the text |
| QuotedStrings.AnySpellingParses | crates/compiler/src/objdef_literal.rs:321-349 | and so does the parser, to the closing quote, wherever the literal stands |
| QuotedStrings.QuotedReadsBack | crates/common/src/util/mod.rs:289-293 | unquoting undoes quoting, for every text |
| QuotedStrings.QuotedParses | crates/compiler/src/objdef_literal.rs:321-349 | and so does the parser |
| QuotedStrings.QuotedVisible | crates/common/src/util/mod.rs:322-346 | nothing in a quoted literal is a control or format character |
| QuotedStrings.FindInvisible | crates/common/src/util/mod.rs:350-355 | the search of the ranges |
| QuotedStrings.Escape | crates/common/src/util/mod.rs:374-413 | the escape of one character, or none |
| QuotedStrings.WriteQuoted | crates/common/src/util/mod.rs:362-420 | the shortcut and the loop write the quoted literal |
| LiteralSpelling.UnderscoreIgnored | crates/compiler/src/objdef_literal.rs:409-457 | an underscore anywhere in a number changes nothing |
| LiteralSpelling.SignsAndZeros | crates/compiler/src/objdef_literal.rs:445-455 | nor do a plus sign and a leading zero |
| LiteralSpelling.DigitsJoin | crates/compiler/src/objdef_literal.rs:445-455 | each digit counts ten times the ones after it |
| LiteralSpelling.TriviaSkipped | crates/compiler/src/objdef_literal.rs:167-199 | any run of white space, line and block comments is skipped, to the first thing that is neither |
| LiteralSpelling.TriviaIgnored | crates/compiler/src/objdef_literal.rs:167-199 | so it changes nothing before a literal |
| LiteralSpelling.ConstantReads | crates/compiler/src/objdef_literal.rs:1737-1773 | a name stands for the constant of that name, and without one it is an error |
| LiteralSpelling.TruthInAnyCase | crates/compiler/src/objdef_literal.rs:1737-1773 | true and false in any case |
| LiteralSpelling.AnonymousReads | crates/compiler/src/objdef_literal.rs:378-407 | an anonymous object's form reads as that object |
| LiteralRoundTrip.ListIsNoLambda | crates/compiler/src/objdef_literal.rs:837-900 | the lookahead never takes a printed list for a lambda |
| LiteralRoundTrip.ValueReads | crates/compiler/src/objdef_literal.rs:1682-1749 | a printed value, wherever it stands before a delimiter and at any depth, reads back and ends there, or is refused as too deep, or for an integer beyond 64 bits |
| LiteralRoundTrip.LiteralReadsBackExactly | crates/compiler/src/objdef_literal.rs:45-57 | parsing the client's literal of a value gives the value exactly when its containers nest at most 64 deep and each of its integers is, as a decimal, preferred to every other integer that is the same number |
| LiteralRoundTrip.SafeIsExact | clients/web-sdk/src/moor-var.ts:52-58 | integers below 2^53 in size are, anywhere in a value |
| LiteralRoundTrip.IntegersMisread | clients/web-sdk/src/moor-var.ts:317-320 | 2^53+1 is read back as 2^53, and 2^63-1 is refused |
| LiteralParser.ParseLiteralValue | crates/compiler/src/objdef_literal.rs:45-57 | the whole text as one literal |
| LiteralParser.Parser.constructor | crates/compiler/src/objdef_literal.rs:114-122 | starts at 0, depth 0 |
| LiteralParser.Parser.SkipTrivia | crates/compiler/src/objdef_literal.rs:167-199 | white space and comments, as often as they come |
| LiteralParser.Parser.EatChar | crates/compiler/src/objdef_literal.rs:221-228 | takes the character if it is there |
| LiteralParser.Parser.ParseQuoted | crates/compiler/src/objdef_literal.rs:321-339 | past the closing quote, or unterminated |
| LiteralParser.Parser.ParseString | crates/compiler/src/objdef_literal.rs:341-349 | the string with its escapes undone |
| LiteralParser.Parser.Unquote | crates/common/src/util/mod.rs:146-257 | the loop computes the unquoting function |
| LiteralParser.Parser.ParseObject | crates/compiler/src/objdef_literal.rs:378-407 | anonymous, unique and numbered objects |
| LiteralParser.Parser.ParseNumber | crates/compiler/src/objdef_literal.rs:409-457 | 64-bit integers |
| LiteralParser.Parser.ParseIdent | crates/compiler/src/objdef_literal.rs:262-280 | an identifier, or no move |
| LiteralParser.Parser.ParseConstantName | crates/compiler/src/objdef_literal.rs:1056-1064 | a name, or two with a separator |
| LiteralParser.Parser.ParseWord | crates/compiler/src/objdef_literal.rs:1737-1773 | booleans and constants |
| LiteralParser.Parser.BraceStartsLambda | crates/compiler/src/objdef_literal.rs:837-900 | whether an arrow follows the matching brace |
| LiteralParser.Parser.ParseLiteral | crates/compiler/src/objdef_literal.rs:1682-1702 | as the grammar reads it; the depth is restored on every path |
| LiteralParser.Parser.ParseInner | crates/compiler/src/objdef_literal.rs:1704-1749 | by the first character |
| LiteralParser.Parser.ParseList | crates/compiler/src/objdef_literal.rs:459-477 | the empty list or its items |
| LiteralParser.Parser.ParseItems | crates/compiler/src/objdef_literal.rs:466-477 | the loop reads the items the grammar reads |
| LiteralParser.Parser.ParseMap | crates/compiler/src/objdef_literal.rs:479-505 | the empty map or its entries |
| LiteralParser.Parser.ParseEntries | crates/compiler/src/objdef_literal.rs:487-505 | the loop reads the entries the grammar reads |
| CommandInvariant.StepKeeps | clients/moor-web-mcp/src/moor-service.ts:263-330 | every step keeps the session invariant, with any number of suspended outcomes, reattached sockets and refused credentials |
| CommandRuns.OneAtATime | clients/moor-web-mcp/src/moor-service.ts:327-329 | in every run at most one started command is unsettled, and later ones have not begun |
| CommandRuns.SettlesOnce | clients/moor-web-mcp/src/moor-service.ts:273-285 | a settled promise and its result never change again |
| CommandRuns.NeverStranded | clients/moor-web-mcp/src/moor-service.ts:286-290 | the active command can always go on; in flight, its timer runs and settles it |
| CommandResults.CollectsOwnEvents | clients/moor-web-mcp/src/moor-service.ts:645-680 | in every run a command collects only events of the socket it was sent on |
| CommandResults.StepExactly | clients/moor-web-mcp/src/moor-service.ts:274-324 | from a safe state no step lets another's outcome settle a command, and the state stays safe exactly if the step is not careless |
| CommandResults.DecidedByOwnOutcome | clients/moor-web-mcp/src/moor-service.ts:274-316 | in every run without careless steps no command is decided by another's outcome |
| CommandResults.LateOutcomeExactly | clients/moor-web-mcp/src/moor-service.ts:281-324 | after a step from a safe state another's outcome can come to settle a command exactly if the step was careless: a suspended outcome, an empty-message failure of a command that went out, or a current socket attached to a connection that owes an outcome |
| CommandResults.LateOutcomeExample | clients/moor-web-mcp/src/moor-service.ts:308-324 | runs that get there by a suspended outcome and by a failed send |
| CommandResults.ReattachedExample | crates/web-host/src/host/web_host.rs:837-912 | a run that gets there after a timeout discarded the socket, exactly if the next socket reattaches |
| CommandSettlement.OutcomeSettles | clients/moor-web-mcp/src/moor-service.ts:308-316 | an outcome on the current socket resolves the registered command, as an error exactly when the task failed, and leaves the socket |
| CommandSettlement.InterruptionSettles | clients/moor-web-mcp/src/moor-service.ts:274-325 | a prompt, a garbled message, a closed socket, a timeout, a cancellation, a failed send and a shutdown each resolve the command in flight as an error, with the events it had |
| CommandSettlement.RefusedAtStart | clients/moor-web-mcp/src/moor-service.ts:265-267 | after a shutdown or a cancellation a run is rejected before it starts |
| CommandSettlement.RefusedWithItsSocket | clients/moor-web-mcp/src/moor-service.ts:690-700 | a run whose socket does not open is rejected |
| CommandSettlement.RegisteredOrRefused | clients/moor-web-mcp/src/moor-service.ts:287-325 | registering leaves the command pending, an error if cancelled, or rejected without a socket |
| CommandSettlement.HearsExactly | clients/moor-web-mcp/src/moor-service.ts:296-307 | in every run a command's events are exactly the narrative received on the current socket while it was registered, in order |
| CommandSettlement.CommandCompletes | clients/moor-web-mcp/src/moor-service.ts:268-326 | from any reachable state with the run ready: it is sent, hears all it is told, and resolves as its outcome says |
| CommandSettlement.PreparedOnOpenSocket | clients/moor-web-mcp/src/moor-service.ts:598-603 | a run is ready at once on an open socket |
| CommandSettlement.PreparedOnNewSocket | clients/moor-web-mcp/src/moor-service.ts:604-633 | or once the new one it waits for opens |
| CharacterSession.SessionState.constructor | clients/moor-web-mcp/src/moor-service.ts:584-592 | a session with nothing running, which knows its connection if the login reply named one |
| CharacterSession.SessionState.Finish | clients/moor-web-mcp/src/moor-service.ts:274-285 | ends a command once, clears the registration, discards the connection; as what it settles is said by OutcomeSettles and InterruptionSettles |
| CharacterSession.SessionState.ClearIfCurrent | clients/moor-web-mcp/src/moor-service.ts:635-643 | fails the command and forgets the socket if it is the current one |
| CharacterSession.SessionState.Submit | clients/moor-web-mcp/src/moor-service.ts:327-329 | the command joins the chain; keeps the invariant, at most one started command unsettled, and every settled result |
| CharacterSession.SessionState.StartRun | clients/moor-web-mcp/src/moor-service.ts:598-633 | refused, an open socket, or a new one to wait for; keeps the invariant, at most one started command unsettled, and every settled result |
| CharacterSession.SessionState.Connected | clients/moor-web-mcp/src/moor-service.ts:690-700 | goes on, or rejects the run; keeps the invariant, at most one started command unsettled, and every settled result |
| CharacterSession.SessionState.Register | clients/moor-web-mcp/src/moor-service.ts:287-325 | registers, arms the timer and sends; keeps the invariant, at most one started command unsettled, and every settled result |
| CharacterSession.SessionState.OnOutcome | clients/moor-web-mcp/src/moor-service.ts:308-316 | ends the registered command if the socket is current, as an error exactly when the task failed (OutcomeSettles); keeps the invariant, at most one started command unsettled, and every settled result |
| CharacterSession.SessionState.OnNarrative | clients/moor-web-mcp/src/moor-service.ts:296-307 | collected only from the current socket; keeps the invariant, at most one started command unsettled, and every settled result |
| CharacterSession.SessionState.OnCredentials | clients/moor-web-mcp/src/moor-service.ts:671-678 | the connection of the current socket is remembered; keeps the invariant, at most one started command unsettled, and every settled result |
| CharacterSession.SessionState.OnRequestInput | clients/moor-web-mcp/src/moor-service.ts:317-318 | the registered command fails; keeps the invariant, at most one started command unsettled, and every settled result |
| CharacterSession.SessionState.OnTimeout | clients/moor-web-mcp/src/moor-service.ts:287-290 | the command fails; keeps the invariant, at most one started command unsettled, and every settled result |
| CharacterSession.SessionState.OnSendError | clients/moor-web-mcp/src/moor-service.ts:322-324 | the command fails, its socket discarded only if there is a message; keeps the invariant, at most one started command unsettled, and every settled result |
| CharacterSession.SessionState.OnClose | clients/moor-web-mcp/src/moor-service.ts:687-688 | a closed socket; keeps the invariant, at most one started command unsettled, and every settled result |
| CharacterSession.SessionState.OnLoggedOut | clients/moor-web-mcp/src/moor-service.ts:368-371 | the session and its socket are dropped, and no command is told; keeps the invariant, at most one started command unsettled, and every settled result |
| CharacterSession.SessionState.Close | clients/moor-web-mcp/src/moor-service.ts:501-511 | the client shuts down; keeps the invariant, at most one started command unsettled, and every settled result |
| Fnv.MixUndone | crates/common/src/builtins.rs:1631-1636 | every hashing step can be undone |
| Fnv.MixSpreads | crates/common/src/builtins.rs:1631-1636 | from one state different bytes lead to different states |
| Fnv.OneByteMatters | crates/common/src/builtins.rs:1619-1659 | streams that differ in one byte alone hash differently |
| Fnv.Hasher.Bytes | crates/common/src/builtins.rs:1631-1636 | the loop folds the bytes into the state, each by the step MixIs describes |
| FnvReference.XorBit | crates/common/src/builtins.rs:1631-1636 | each bit of the exclusive or is set exactly when one of the two bits is |
| FnvReference.MixIs | crates/common/src/builtins.rs:1631-1636 | one byte: the word whose bits are the state's, flipped where the byte's are set, times the prime modulo 2^64 |
| FnvReference.MixLow | crates/common/src/builtins.rs:1631-1636 | the same by the machine's exclusive or on the low byte |
| FnvReference.PublishedValues | crates/common/src/builtins.rs:1619-1659 | the published FNV-1a values of the empty text and of "a" |
| Fingerprint.StringReadsBack | crates/common/src/builtins.rs:1650-1653 | a length-prefixed text is read back from before anything |
| Fingerprint.StreamDetermines | crates/common/src/builtins.rs:1603-1616 | two streams are equal exactly when their entries are |
| Fingerprint.SignatureIgnoresOrder | crates/common/src/builtins.rs:1594-1600 | the fingerprint depends only on the bag of ids |
| Fingerprint.BytesDetermine | crates/common/src/builtins.rs:1594-1617 | the bytes hashed are equal exactly when the bags of ids are and every id has the same names and flags in both tables |
| Fingerprint.ExposureMatters | crates/common/src/builtins.rs:1594-1617 | exposing or hiding, in the table, one builtin that the program calls always changes the fingerprint |
| Fingerprint.BuiltinSignature | crates/common/src/builtins.rs:1594-1617 | the method computes the fingerprint, or gives up on an unknown id; WriteIs says which bytes it hashes and MixIs how |
| FnvReference.WriteIs | crates/common/src/builtins.rs:1611-1615 | the bytes of an entry: id and lengths low byte first, the name before the override, one byte for each flag |
| FnvReference.SignatureOfOne | crates/common/src/builtins.rs:1594-1617 | the fingerprint of one builtin is the hash of its entry |

## Left out

- Positions count characters, not UTF-8 bytes; the reader works on decoded text.
- Credentials, HTTP requests, the clock and the contents of narrative events are not modelled. Timers may fire at any
  time, replies may be lost or late, and application callbacks are assumed not to call back into the transport.
- Lexer.LexTiles: positions are characters, so byte boundaries inside a character are not covered.
- Lexer.LexKeepsText: joins texts of characters, where the original slices bytes.
- SseSystem.RunKept: a transport is replaced only once its last post has settled. A fetcher that ignores the abort signal
  could let a post of the old transport succeed after the reconnect and take a prompt of the new one off the list.
- SseSession: the end of an ephemeral dispatch, the heartbeat, an error of the main loop and the owner's reconnect have
  no method of their own; as steps of SseSystem they have functions.
- CharacterSession: a socket's opening, a cancellation and a message that cannot be decoded have no method of their own;
  the last two do what OnTimeout and OnRequestInput do.
- SseSystem.NothingLeftWaiting: says that a request or timer is there, not that the network answers.
- SourceLexer.Lexer.LexToken: operators and punctuation are looked up by a function instead of one match arm each.
- CharacterSession.SessionState.ClearIfCurrent: ending a rejected command that never had a socket throws a TypeError
  at `ws.terminate()`, which leaves the rest of the handler undone and by default stops the process; the model goes
  on with the rest of the handler.
- CommandSession: of the server only the connections are modelled, each with the commands whose last outcome is still
  to come. Outcomes may be late or never come. The stretch between a socket's opening and the run's continuation may
  hold any event, also those that the runtime would not deliver there. The lines of a result are not modelled, its
  events are.
- CommandRuns.NeverStranded: says that the next step can come, not that sockets open or timers fire.
- LiteralRoundTrip.LiteralReadsBackExactly: a map is its list of entries; sorting them and dropping repeated keys
  when a map is built is not modelled. Floats, errors, binaries and flyweights are not among the values.
- Literal.ToLiteral: prints the nine kinds of value of the model, not floats, errors, binaries and flyweights.
- LiteralParser.Parser.ParseNumber: a float ends in an error of its own.
- LiteralParser.Parser.ParseWord: error values and included files end in that error too.
- LiteralParser.Parser.ParseInner: floats, binary literals, error values, flyweights, lambdas and included files end
  in one error, because they read files or parse code that is not part of this model.
- LiteralParser.Parser.ParseConstantName: names are compared as written, though symbols ignore case.
- VerbBody.FindVerbBody: does not give the line number of the body.
- QuotedStrings.WriteQuoted: works on characters, where the original slices bytes, and gives the text instead of writing
  it to a writer that can fail.
- LexerForms.TokenSpelled: says nothing of the texts of white space, comments, strings, binary literals, qualified names
  and errors; LexerShape.TokenAtShape says where strings, comments and binary literals end.
- Fingerprint.BuiltinSignature: the ids are sorted by a function, as the original calls its library's sort.
- Fingerprint.BytesDetermine: says nothing of two different streams that collide; a 64-bit hash has collisions.
- The program an eval runs (`evalBody`), thread placement on cores, the builtin table and its padding, the parser,
  code generator and virtual machine, the other clients, and all input and output are not part of this model.
