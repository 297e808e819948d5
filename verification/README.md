# A Dafny model of the mail pipeline

The mail server accepts a message, runs checks on it, rewrites and routes its recipients and hands it to
delivery targets. What it does is set up by a configuration language of its own. This project models that
core and proves what it promises:

* **Configuration language** (`Lexer`, `LexerWords`, `Dispenser`, `Parser`, `ParserBraces`, `ParserNames`, `ParserMacros`,
  `ParserRoundTrip`, `ParserFiles`, `Imports`, `ConfigMap`): characters to tokens, tokens to a tree of directives, expansion of imports, and the mapping of
  directives to values.
* **Start-up and shutdown** (`Startup`, `StartupLaws`, `StartupNames`, `StartupSuccess`): lazy initialisation over a reference
  graph that may be cyclic, and shutdown in reverse.
* **Checks** (`Checks`, `CheckBatch`, `CheckLogs`, `CheckAnswers`, `CheckHistory`, `CheckMaking`, `CheckRunner`,
  `CheckAgreement`, `Dmarc`): one state object per check and message, batches of goroutines, merged verdicts, and
  DMARC (sections 3.1, 6.3 and 6.6.2 of RFC 7489).
* **The message pipeline** (`Routing`, `RoutingConfig`, `RoutingContents`, `Pipeline`, `Statuses`): choice of blocks, the life of a
  message from start to commit or abort, and statuses translated back through nested pipelines.
* **Rewriting, lookup and quoting** (`Rewrite`, `TableChain`, `Address`): modifier groups, table chains and the
  local part of addresses (section 4.1.2 of RFC 5321).

## How to read it

Code that updates state step by step is a class or a method with loops, tied by its `ensures` to a function on
values or to a predicate; the laws are lemmas about those. Checks, modifiers, tables, targets and the libraries
for domains and Unicode are parameters: functions where the code relies on them being functions, otherwise an
arbitrary choice (`*`) at each call. Ghost fields record what happened: `logs` holds the calls every check state
received, `history` every batch, `judged` what DMARC decided, `reclosed` whether a registered state was closed
before the end, `offered` how each address came to each target, and `bodies` the targets that were sent the body.

Goroutines are interleaved steps. `CheckBatch.BatchState` is the shared state of one batch; a run is any sequence
of single steps of single goroutines, in any order, and `EveryInterleaving` holds for all of them. The method
`Runner.RunAndMergeResults` picks the next goroutine arbitrarily.

Strings are sequences of characters, not bytes. Invalid UTF-8 has no counterpart here.

## Where the code and its comments differ

The model follows the code.

* A check listed twice in one list gets two states, of which only the second is registered, and the first is never
  closed (`internal/msgpipeline/check_runner.go:80-96`). States are all closed exactly if this does not happen.
* When states cannot be obtained, those of the same list that were there before are closed as well
  (`internal/msgpipeline/check_runner.go:74-78`) and stay in use. States are all closed exactly once if and only if,
  besides, no list that failed had come across a registered state.
* A recipient a state has seen is not shown to it again, and counts as passed
  (`internal/msgpipeline/check_runner.go:254-264`).
* A quarantine in a batch that also rejects is not recorded (`internal/msgpipeline/check_runner.go:226-234`).
* A check that panics neither rejects nor quarantines (`internal/msgpipeline/check_runner.go:180-188`).
* A DMARC record with `pct=p` is applied for `p + 1` of 100 draws, not `p` (`internal/dmarc/verifier.go:164-166`).
* A `#` inside a token hides the rest of that word, not the rest of the line
  (`framework/config/lexer/lexer.go:146-166`).
* A macro or snippet line that ends in `}` does not end the block around it
  (`framework/cfgparser/parse.go:303-337`).
* A reference after a dollar sign, as in `$$(a)`, can be replaced so that a new reference is left
  (`framework/cfgparser/imports.go:156-177`).
* A macro can have no value at all, when it is declared as an unknown one; used inside an argument it makes the
  code fail at an index, which is an error here (`framework/cfgparser/imports.go:167-170`).
* Snippets of an imported file replace those of the same name while expansion is under way
  (`framework/cfgparser/imports.go:104-106`), so a circle of imports may end.
* Aliases of a block whose name is the empty string lead nowhere (`framework/module/instances.go:55-72`).
* An unterminated quote and a trailing backslash in a local part are accepted (`framework/address/split.go:58-104`).
* `reroute` may follow `reject` in a recipient block, `deliver_to` may not (`internal/msgpipeline/config.go:276-311`).

## Model

| member | source | states |
|---|---|---|
| `Lexer.Scanner.Next` | framework/config/lexer/lexer.go:100-178 | the loop with its flags finds the token, position and line that the step-by-step scan finds, or the end of input |
| `Lexer.AllTokens` | framework/config/lexer/parse.go:28-42 | the tokens collected are exactly the lexemes of the input without its byte order mark |
| `Lexer.HashInsideToken` | framework/config/lexer/lexer.go:146-166 | a hash sign after the start of a token hides only the rest of the word |
| `Lexer.HashBeforeToken` | framework/config/lexer/lexer.go:146-166 | a hash sign before any token hides the rest of the line, which still counts as a line |
| `Lexer.LexemesOrdered` | framework/config/lexer/lexer.go:100-178 | over any input, tokens lie one after another, carry the line they start on, and hold exactly the line breaks of their range |
| `Lexer.QuoteRoundTrip` | framework/config/lexer/lexer.go:100-178 | texts written in quotes, only quotes escaped, lex back to the same texts if and only if every backslash run before a quote or the end is even; then tokens and lines are exact |
| `LexerWords.LexemesRead` | framework/config/lexer/lexer.go:100-178 | over any input, the tokens are a reading of it: what is outside of them is white space and comments; an unquoted word goes up to the next white space other than a carriage return and has the text of its range up to the first hash sign, without carriage returns; a quotation goes up to its closing quote and has the text it quotes, with quotes unescaped |
| `LexerWords.ReadingUnique` | framework/config/lexer/lexer.go:100-178 | any text has only one such reading |
| `LexerWords.WordsRoundTrip` | framework/config/lexer/lexer.go:100-178 | words written as they are, with white space after each, lex back to the same words if and only if none is empty, begins with a quote or holds white space or a hash sign, and the first does not begin with a byte order mark; then tokens and lines are exact |
| `Dispenser.Cursor.Next` | framework/config/lexer/dispenser.go:74-80 | moves one token unless at the last, and says so |
| `Dispenser.Cursor.NextArg` | framework/config/lexer/dispenser.go:86-102 | moves one token exactly when the next is on the line the current one ends on |
| `Dispenser.Cursor.NextLine` | framework/config/lexer/dispenser.go:107-122 | moves one token exactly when the next is on a later line |
| `Dispenser.ArgumentsEndAtLineBreaks` | framework/config/lexer/dispenser.go:86-122 | over any input, the cursor stays on a line exactly when no newline lies between the end of the token and the start of the next |
| `Parser.ParseContext.ReadNode` | framework/cfgparser/parse.go:106-175 | the argument loop, with blocks and backslash continuation, reads the directive the grammar functions define and leaves the same state |
| `Parser.ParseContext.ReadNodes` | framework/cfgparser/parse.go:219-349 | the block loop reads the nodes the grammar functions define, with the same errors and state |
| `Parser.ParseContext.ReadLine` | framework/cfgparser/parse.go:255-343 | one logical line: the end, the closing brace or a directive |
| `Parser.ParseContext.SettleNode` | framework/cfgparser/parse.go:296-346 | records macros and snippets, expands macros in everything else, and notices a closing brace at the end of a line |
| `Parser.NodeFrom` | framework/cfgparser/parse.go:106-175 | reading a directive ends for every token sequence and never moves the cursor back |
| `Parser.NodesFrom` | framework/cfgparser/parse.go:219-349 | reading a block ends for every token sequence and never moves the cursor back |
| `ParserBraces.AcceptedFilesBalance` | framework/cfgparser/parse.go:351-385 | an accepted file is read to its last token, every opening brace opened a block, and as many closing braces were acted upon |
| `ParserNames.AcceptedNamesValid` | framework/cfgparser/parse.go:106-385 | in an accepted file every directive, at any depth and in every snippet, has a valid name, and no declaration is left among them |
| `ParserRoundTrip.TreeRoundTrip` | framework/cfgparser/parse.go:106-349 | every writable tree, blocks at most 256 deep, laid out one directive a line, parses to exactly that tree, with no block and empty block kept apart, cursor on the last token, nesting restored |
| `ParserRoundTrip.FileRoundTrip` | framework/cfgparser/parse.go:351-385 | the same from text to tree, through the lexer |
| `ParserFiles.DeclaredRoundTrip` | framework/cfgparser/parse.go:106-385 | a file of directives and of declarations of snippets and macros, in any order, parses to exactly its directives, and the tables of snippets and macros are exactly those of its declarations |
| `ParserFiles.SnippetsExactly` | framework/cfgparser/parse.go:327-337 | the snippet table has the names declared, each with the body written last for it |
| `ParserFiles.MacrosExactly` | framework/cfgparser/parse.go:312-326 | the macro table has the names declared, each with the values written last for it |
| `ParserFiles.DeclaredFileRoundTrip` | framework/cfgparser/parse.go:351-385 | the same from text to tree, through the lexer |
| `ParserFiles.JoinedDirective` | framework/cfgparser/parse.go:106-175 | a directive whose words are spread over any number of lines joined by backslashes is read as if they stood on one |
| `ParserFiles.ClosedOnTheLine` | framework/cfgparser/parse.go:296-346 | a directive on the line of the closing brace is kept, and the brace closes the block |
| `ParserMacros.ReferenceIsReplaced` | framework/cfgparser/imports.go:114-154 | anywhere among the arguments a reference is replaced by all values of its macro, by nothing if there is none, and the arguments around it are not affected |
| `ParserMacros.NoReferenceSurvives` | framework/cfgparser/parse.go:219-385 | in an accepted file without a word that begins with two dollar signs and ends with a parenthesis, no argument of a directive or a snippet, at any depth, and no value of a macro is a macro reference |
| `ParserMacros.SpliceKeepsInert` | framework/cfgparser/imports.go:156-177 | replacing the references in the middle of an argument, one macro after the other, makes a reference of no argument that is not of this kind |
| `ParserMacros.DoubledIsSpliced` | framework/cfgparser/imports.go:156-177 | a reference after a dollar sign is spliced into a reference exactly when the value of its macro is in parentheses |
| `ParserMacros.OneSurvives` | framework/cfgparser/imports.go:114-177 | an accepted file of two lines in which a reference is left, so the condition is needed |
| `Imports.ImportContext.ExpandImports` | framework/cfgparser/imports.go:28-75 | the recursive rebuilding of a block ends for every snippet table and file set, and gives what the expansion functions define |
| `Imports.ImportContext.ResolveImport` | framework/cfgparser/imports.go:77-112 | a snippet's nodes, or those of a file, whose snippets join the table |
| `Imports.ExpandRemovesImports` | framework/cfgparser/imports.go:28-75 | whenever expansion succeeds, no node named import is left anywhere |
| `Imports.ExpandExactly` | framework/cfgparser/imports.go:28-112 | if nothing reached declares a snippet under a name imported in a file that reaches it, unless that file declares the same: the expansion in passes succeeds exactly when a plain recursive substitution, counting one for every block entered and import followed, meets no import beyond the limit of 255, and gives exactly that substitution |
| `Imports.FilesKeepCalm` | framework/cfgparser/imports.go:77-112 | so it is wherever no file declares snippets of its own, and the snippet table then does not change |
| `Imports.ExpandSubstitutes` | framework/cfgparser/imports.go:28-112 | under that condition the result, on success, is the full substitution, defined without passes or depth |
| `Imports.SubstitutionUnique` | framework/cfgparser/imports.go:28-112 | there is at most one full substitution |
| `Imports.ImportCyclesFail` | framework/cfgparser/imports.go:28-112 | under that condition, if imports reachable from the root run in a circle, through snippets or files, expansion never succeeds |
| `Imports.CycleSurvives` | framework/cfgparser/imports.go:28-112 | a circle that is accepted, because a file imported after it declares its snippet anew: the condition is needed |
| `Imports.SharedSnippets` | framework/cfgparser/imports.go:77-112 | a file that holds snippets is imported, then any of them: each import stands for the body, a snippet of the file in place of one of the same name |
| `ConfigMap.Map.MapBlock` | framework/config/map.go:653-689 | succeeds exactly when each directive is known or allowed, accepted and not repeated; each is handled once and in order, unknown ones kept in order |
| `ConfigMap.Map.FillMissing` | framework/config/map.go:691-740 | in whatever order the entries come, those without a directive are inherited, defaulted or missed |
| `ConfigMap.Map.ProcessWith` | framework/config/map.go:653-743 | succeeds exactly when the block is acceptable; every directive handled once, every value placed, whatever the order of the entries |
| `ConfigMap.DirectiveDecides` | framework/config/map.go:653-689 | the value of an entry is what its mapper makes of its one directive, before anything inherited or defaulted |
| `ConfigMap.RequiredHasValue` | framework/config/map.go:699-714 | no required entry is left without a value |
| `ConfigMap.ReadBlock` | framework/config/map.go:595-743 | what a module does with its block: exactly the declared entries get values, by the same rules |
| `Startup.ModuleTable.GetInstance` | framework/module/instances.go:74-105 | the imperative lookup with lazy Init makes the same calls in the same order as the traversal function, for any reference graph, and stops in the same state where it fails |
| `Startup.ModuleTable.RunInit` | framework/config/module/modconfig.go:71-153 | references resolve through the registry, inline modules are initialised on the spot |
| `Startup.ModuleTable.RegisterModules` | cmd/mailchatd/cmd/mail.go:357-411 | the loop over blocks fills the registry as the registration function defines, with the same errors |
| `Startup.ModuleTable.InitModules` | cmd/mailchatd/cmd/mail.go:413-443 | endpoints are initialised in order and an unused block is an error |
| `Startup.ModuleTable.RunHooks` | framework/hooks/hooks.go:49-80 | hooks are called in the reverse of the order they were added |
| `StartupNames.EveryNameResolves` | cmd/mailchatd/cmd/mail.go:357-411 | after registration every block's name leads to its own module, and so do its aliases, exactly when the name is not empty |
| `StartupNames.EndpointsInOrder` | cmd/mailchatd/cmd/mail.go:357-411 | the endpoints returned are those of all endpoint blocks, in their order |
| `StartupLaws.InitAtMostOnce` | framework/module/instances.go:74-105 | for every start, cycles included and wherever it stops: Init is called at most once for every module object, and the hooks are those of the closable ones that finished, each once and in that order |
| `StartupLaws.ShutdownClosesFinished` | framework/hooks/hooks.go:67-80 | for every start, shutdown closes exactly the closable module objects whose Init succeeded, each once |
| `StartupLaws.StartReachesEverything` | cmd/mailchatd/cmd/mail.go:413-443 | on success the initialised blocks are exactly those the endpoints reach, and those are all registered blocks |
| `StartupSuccess.StartSucceedsIff` | cmd/mailchatd/cmd/mail.go:413-443 | a start succeeds if and only if everything the endpoints refer to, directly or not, is registered, no endpoint or reached block has a failing step, inline modules included, and every registered block is reached; cycles do not matter |
| `StartupSuccess.EndpointsEndIff` | framework/module/instances.go:74-105 | the endpoints can all be initialised if and only if the first two conditions hold |
| `StartupLaws.OrderedIffAcyclic` | framework/module/instances.go:74-105 | every module finishes its Init after all it uses if and only if the references have no cycle |
| `StartupLaws.ShutdownBeforeDependencies` | framework/hooks/hooks.go:67-80 | after a successful start without cycles, shutdown closes every closable module object exactly once and before anything it uses, directly or not |
| `Dmarc.EvaluateAlignment` | internal/dmarc/evaluate.go:118-203 | the loop's flags and reported results are those of the whole list: last SPF result, aligned passes, the reported DKIM result, the verdict |
| `Dmarc.Verifier.Apply` | internal/dmarc/verifier.go:129-174 | takes the outcome out of the channel and applies the policy to the results |
| `Dmarc.PolicyExactly` | internal/dmarc/verifier.go:129-174 | with at most one SPF result, the record's policy (the subdomain policy if the record came from another domain) applies exactly when both kinds of result are there, none is an aligned pass and the draw does not exempt |
| `Dmarc.VerdictExactly` | internal/dmarc/evaluate.go:118-224 | with at most one SPF result, by the folded organisational domains alone (in strict mode, and where the From domain is a public suffix, the folded domains): pass exactly if both kinds of result are there and a passing one is of the owner of the From domain; otherwise a temporary error if one of the owner, or the SPF result, is one, else fail |
| `Dmarc.OutcomeExactly` | internal/dmarc/verifier.go:129-174 | a message is rejected exactly if the lookup failed for a time, or no passing result is of the owner of the From domain, both kinds are there, the draw does not exempt it and the record asks for that, with what it says of subdomains if it was found at another domain; quarantined likewise |
| `Dmarc.NobodyVouches` | internal/dmarc/evaluate.go:118-224 | whatever the results and their number, the verdict is not pass if no passing result is of the owner of the From domain |
| `Dmarc.AlignedPassIsSafe` | internal/dmarc/verifier.go:129-174 | outside a temporary lookup failure an aligned pass means no quarantine and no rejection |
| `Dmarc.PercentDraws` | internal/dmarc/verifier.go:164-166 | of any number of draws, one more than the percentage names lets the policy apply |
| `Dmarc.VerdictOrderFreeIff` | internal/dmarc/evaluate.go:118-203 | the verdict is the same for all orders of the results if and only if there is no DKIM result, or the SPF results are all with or all without a value and all or none temporary errors, the latter unless DKIM has an aligned pass, or an aligned temporary error and SPF no aligned pass |
| `Dmarc.OneSpfIsOrderFree` | internal/dmarc/evaluate.go:118-203 | with at most one SPF result the order never matters |
| `Checks.ApplyActionVerdict` | framework/config/module/check_action.go:102-120 | a failed check rejects or quarantines as its action says, and always with a reason |
| `Checks.VerdictOrderFreeIff` | internal/msgpipeline/check_runner.go:209-234 | whether a batch rejects, or quarantines, is the same for all orders if and only if no such result lacks a reason that another has |
| `Checks.AuthsPermuted` | internal/msgpipeline/check_runner.go:194-198 | merged authentication results are the same results for all orders |
| `Checks.BatchOrderDoesNotChangeDmarc` | internal/msgpipeline/check_runner.go:161-237 | with at most one SPF result in all, the DMARC verdict is the same for all orders of a batch |
| `CheckBatch.RunKeepsInv` | internal/msgpipeline/check_runner.go:161-237 | every step of every goroutine keeps the batch invariant: every answer of a state, and an empty result for every call not due, flows once from the states to authentication results, header and verdict |
| `CheckBatch.EveryInterleaving` | internal/msgpipeline/check_runner.go:161-237 | for every interleaving each state gets exactly the calls due, the results are every answer once and an empty one for every call not due, they are merged in some order of their own each, the first rejection with a reason decides, a quarantine counts only without one |
| `CheckBatch.InterleavingsAgree` | internal/msgpipeline/check_runner.go:161-237 | two complete runs of one batch whose states answer alike leave the same logs and the same results, rejection and quarantine are the same if checks give their reasons, and the DMARC verdict is if there is at most one SPF result |
| `CheckAnswers.ResultsAreAnswers` | internal/msgpipeline/check_runner.go:161-237 | the results of a batch are the answers in the new entries of the logs, each once, and empty ones |
| `CheckAgreement.MessagesAgree` | internal/msgpipeline/check_runner.go:161-342 | two runs of a message that ask for the same batches and whose states answer alike: the states get the same calls; each batch rejects in both or in neither and both messages are marked or neither, if checks give their reasons; DMARC applies the same policy if there is at most one SPF result |
| `CheckRunner.Runner.RunAndMergeResults` | internal/msgpipeline/check_runner.go:161-237 | the batch with arbitrarily interleaved goroutines is such a run: same calls, every answer once, same merging; and it leaves a record of it |
| `CheckRunner.Runner.CheckStates` | internal/msgpipeline/check_runner.go:70-159 | on success every check of the list has a registered state, new ones caught up on connection, sender and every recipient in order of first appearance; on failure nothing is registered and nothing new is left open; a state is lost exactly when a list that succeeds names a check twice that had no state yet, and one in use is closed early exactly when a list fails that came across it; the authentication results merged are those of all batches on record, and as a multiset those the states answered with |
| `CheckRunner.Runner.CheckConnSender` | internal/msgpipeline/check_runner.go:239-246 | the sender is recorded, new states are shown connection and that sender, and their answers are merged, each once |
| `CheckRunner.Runner.CheckRcpt` | internal/msgpipeline/check_runner.go:248-272 | on success every check of the list has been shown the recipient, no state twice; a state that is new was first shown connection, sender and every recipient on record, each once and in order of first appearance; every answer is merged once, on success and on failure |
| `CheckRunner.Runner.CheckBody` | internal/msgpipeline/check_runner.go:274-289 | on success the body batch of the whole list is on record without a rejection, and the DMARC lookup has started once; states that are new were caught up first; every answer is merged once, on success and on failure |
| `CheckRunner.Runner.ApplyResults` | internal/msgpipeline/check_runner.go:291-342 | the message is marked exactly if it was, or a batch quarantined it, or DMARC does; it is rejected exactly if DMARC does; DMARC judges the authentication results of all batches on record, and the header fields are those that all batches merged |
| `CheckRunner.Runner.Close` | internal/msgpipeline/check_runner.go:344-349 | every state ever created has been closed if and only if none was lost, and exactly once if and only if, moreover, none in use was closed by a list that failed |
| `CheckRunner.ListedTwice` | internal/msgpipeline/check_runner.go:80-96 | a new check named twice in a list that succeeds leaves a state that is never closed |
| `CheckRunner.ClosedTwice` | internal/msgpipeline/check_runner.go:70-78 | a check that has a state, named in a list that then fails on another: in the end all states are closed, but not all exactly once |
| `CheckHistory.PassedMeansNoRejection` | internal/msgpipeline/check_runner.go:226-236 | a batch without an error holds no rejecting result, if rejections give reasons |
| `CheckHistory.PassedMeansUnrejected` | internal/msgpipeline/check_runner.go:274-289 | if no body batch rejected, every check of a list that passed was shown the body, and at no time it was shown it did it reject, if rejections give reasons |
| `Routing.Route` | internal/msgpipeline/msgpipeline.go:196-255 | first table that has the address, then the address, then its domain, then the default; failing tables are skipped |
| `Routing.DomainExactly` | internal/msgpipeline/msgpipeline.go:220-240 | the domain that is looked up is what follows the last at-sign, with something before it; a bare postmaster and the null sender have the empty one |
| `Routing.RcptBlockForAddr` | internal/msgpipeline/msgpipeline.go:544-596 | the same for recipients, by their normalized form |
| `Routing.SrcBlockForAddr` | internal/msgpipeline/msgpipeline.go:196-255 | the same for senders; the null sender is not normalized |
| `RoutingConfig.ParseRcpt` | internal/msgpipeline/config.go:258-316 | succeeds exactly when each directive can be read, no `deliver_to` follows a `reject`, and no `reject` a `deliver_to` or `reroute`; the block then holds the checks, modifiers and targets its directives name, in order, and the last rejection |
| `RoutingConfig.RejectsAndDelivers` | internal/msgpipeline/config.go:276-311 | a block both rejects and has targets exactly when a `reroute` follows a `reject` |
| `RoutingConfig.AddRules` | internal/msgpipeline/config.go:205-224 | rules are normalized and validated; a key keeps its first block |
| `RoutingConfig.ParseLevel` | internal/msgpipeline/config.go:49-256 | the loop over the directives of a source block or of the pipeline reads what the reading function defines |
| `RoutingContents.ContentsByDeclaration` | internal/msgpipeline/config.go:49-256 | a source block or a pipeline that has been read has exactly the checks and modifiers its directives name, in their order, and DMARC exactly if it can have it and a directive turns it on |
| `RoutingContents.PipelineContents` | internal/msgpipeline/config.go:49-256 | the same for the two levels of a pipeline |
| `RoutingContents.ReadExactlyWhen` | internal/msgpipeline/config.go:49-256 | such a level can be read if and only if each directive can where it stands and there is a default: a block of its own, with no handling directives outside the rules beside it, or such directives, if there is no rule that lists addresses |
| `RoutingConfig.RoutesByDeclaration` | internal/msgpipeline/config.go:49-256 | in any configuration that can be read, an address goes to the first table directive that finds it, else to the first directive listing it, else to the first listing its domain, else to the block read from the default directive, or from the directives outside all rules when there is neither rule nor default |
| `RoutingConfig.RcptAlwaysRouted` | internal/msgpipeline/msgpipeline.go:544-596 | every recipient that can be normalized and split has a block, the one the directives say for its normalized form |
| `RoutingConfig.SenderRouted` | internal/msgpipeline/msgpipeline.go:196-255 | a sender goes where the directives say for its normalized form |
| `RoutingConfig.NullSenderRoute` | internal/msgpipeline/msgpipeline.go:196-255 | the null sender matches no source rule: it goes to the first table that has it, or to the default |
| `Pipeline.Start` | internal/msgpipeline/msgpipeline.go:120-141 | a failed start leaves every check state closed |
| `Pipeline.Delivery.Begin` | internal/msgpipeline/msgpipeline.go:143-194 | on success every global check has a state that was shown connection and the sender as it came, every source check one that was shown connection and the sender that the global modifiers made of it, and the source block is the one for that sender |
| `Pipeline.Delivery.AddRcpt` | internal/msgpipeline/msgpipeline.go:280-376 | on success exactly the planned addresses were handed to exactly the planned targets, each delivery knows the presented recipients it is used for, and global, source and block checks have been shown what they judge; on success and on failure every address handed to a target came through a block that has the target, after global and source checks had passed the recipient presented and the checks of the block had passed the address routed; nothing is ever taken back |
| `Pipeline.PlanIsRewriting` | internal/msgpipeline/msgpipeline.go:290-373 | the plan is one depth-first pass through global, source and block modifiers: no other address is handed over, and every one whose block has a target is |
| `Pipeline.Delivery.Body` | internal/msgpipeline/msgpipeline.go:378-428 | no target is sent the body unless every global, source and reached block list passed, DMARC does not reject, and the message is marked if it must be; on success every delivery is sent it once, on failure none twice and nothing else; each had been handed an address in the way `AddRcpt` says |
| `Pipeline.Delivery.Commit` | internal/msgpipeline/msgpipeline.go:504-528 | closes the check states and commits deliveries until one fails |
| `Pipeline.Delivery.Abort` | internal/msgpipeline/msgpipeline.go:530-542 | closes the check states and aborts every delivery |
| `Pipeline.SafeMeansUnrejected` | internal/msgpipeline/msgpipeline.go:378-428 | when the body goes out, every check of every list was shown it and never rejected it, if rejections give reasons |
| `Pipeline.DmarcHonoursAnswers` | internal/msgpipeline/check_runner.go:291-342 | if the states answered with at most one SPF result and an aligned pass, and the lookup did not fail for a time, the policy DMARC applies to what was merged in all batches is none |
| `Pipeline.RunMessage` | internal/msgpipeline/msgpipeline.go:120-542 | in every run from start to end, with any answers and any order of goroutines: body safety; a target that was sent the body had been handed an address through a block that has the target, after the checks concerned had passed it; if the answers of the states hold at most one SPF result and an aligned pass and the lookup did not fail for a time, DMARC neither rejects nor marks; all check states are closed if no list has duplicates; every registered state was first shown connection, sender and, in order of first appearance, the recipients on record when it was created, then only recipients and bodies, and no recipient twice |
| `Statuses.AddRcpt` | internal/msgpipeline/msgpipeline.go:341-372 | recipients pass down through nested pipelines; on success the shared map is exactly what noting every rewrite in turn makes of it, the later one replacing the earlier, and every target at the bottom was given its address, along the chain that led to it |
| `Statuses.StatusReachesClient` | internal/msgpipeline/msgpipeline.go:438-449 | a status set anywhere on a chain, with the collector of that depth, reaches the client under the address presented, if no address is the result of two rewrites and the client's is the result of none |
| `Statuses.PresentAll` | internal/msgpipeline/msgpipeline.go:280-376 | for any pipelines, nested to any depth, and any recipients that meet these conditions, all statuses come back right |
| `Statuses.OnePipelineIff` | internal/msgpipeline/msgpipeline.go:438-449 | with one pipeline that refuses none, all statuses come back right if and only if whoever is delivered under an address is the last presented that is rewritten to it or, if none is, has that address |
| `Statuses.PresentToOne` | internal/msgpipeline/msgpipeline.go:280-376 | the same for a client that presents its recipients |
| `Statuses.SharedResultMisleads` | internal/msgpipeline/msgpipeline.go:348-350 | a client presents any two recipients that a pipeline rewrites to one address: statuses of the first reach the client under the second |
| `Statuses.ClientAsResultMisleads` | internal/msgpipeline/msgpipeline.go:341-372 | a client presents any recipient that is kept and another that is rewritten to it: statuses of the first reach the client under the second, even if the second is then refused |
| `Rewrite.RewriteRcpt` | internal/modify/group.go:94-110 | the nested loops give the level-by-level expansion, errors included |
| `Rewrite.RewriteSender` | internal/modify/group.go:83-92 | the sender goes through the members in order |
| `Rewrite.SendersConcat` | internal/modify/group.go:83-92 | the members of one list, then those of the other, is one list |
| `Rewrite.RcptIsDeep` | internal/modify/group.go:94-110 | level by level succeeds exactly when depth first does, with the same ordered list |
| `Rewrite.NestedGroupsDissolve` | internal/modify/group.go:94-110 | groups inside groups can be dissolved |
| `Rewrite.NestedSendersDissolve` | internal/modify/group.go:83-92 | the same for senders, errors included |
| `Rewrite.StagesCompose` | internal/msgpipeline/msgpipeline.go:290-337 | the global, source and block stages are one depth-first expansion |
| `Rewrite.StagesNotEmpty` | internal/msgpipeline/msgpipeline.go:290-337 | no recipient vanishes on its way through the stages, if no modifier answers with an empty list |
| `Rewrite.RewriteAddress` | internal/modify/replace_addr.go:103-151 | answers what the address is replaced by, whole address first, then local part; fails exactly when there is no such answer; never an empty list |
| `Rewrite.OldDomainKept` | internal/modify/replace_addr.go:126-151 | where only the local part is replaced, a replacement that is not itself an address comes with the old domain: it splits back into the two |
| `Rewrite.ReplaceSender` | internal/modify/replace_addr.go:77-86 | the sender becomes the first replacement, which is always there |
| `Rewrite.ReplaceRcpt` | internal/modify/replace_addr.go:88-93 | recipients are replaced only by the modifier for recipients |
| `Rewrite.ReplaceNeverEmpty` | internal/modify/replace_addr.go:88-151 | groups of replacing modifiers, nested in any way, never answer with an empty list |
| `Rewrite.Ledger.Open` | internal/modify/group.go:67-81 | on success every state object made is open and belongs to the group; on failure every one made has been closed once |
| `Rewrite.Ledger.Close` | internal/modify/group.go:121-132 | closes every state object of the group once, whatever fails |
| `TableChain.LookupMulti` | internal/table/chain.go:92-127 | the lookup with its early exits equals the left fold of the steps |
| `TableChain.Lookup` | internal/table/chain.go:80-90 | the first of the values, if any |
| `TableChain.AskExactly` | internal/table/chain.go:100-124 | a step finds something if and only if every key has values, and then all of them in order; else the first key without values decides between failure and nothing |
| `TableChain.SinglesFollow` | internal/table/chain.go:92-127 | in a chain of single-valued tables one key is followed from table to table, an optional step leaving it where there is no value |
| `TableChain.RunConcat` | internal/table/chain.go:92-127 | a concatenated chain is one chain, then the other |
| `TableChain.NestedChainFlattens` | internal/table/chain.go:92-127 | a required step that is a chain of required, never failing steps can be replaced by its steps |
| `TableChain.OptionalStepsDoNotFlatten` | internal/table/chain.go:100-113 | with an optional inner step it cannot |
| `TableChain.FailuresDoNotFlatten` | internal/table/chain.go:100-113 | with a failing table it cannot |
| `Address.SplitExactly` | framework/address/split.go:36-54 | the two non-empty parts around the last at-sign, or a bare postmaster, and nothing else |
| `Address.UnquoteMbox` | framework/address/split.go:58-104 | the flags give the reading of text outside and inside quotes, errors included |
| `Address.QuoteMbox` | framework/address/split.go:113-132 | quotes and escapes exactly when a special character is there |
| `Address.UnquoteUndoesQuote` | framework/address/split.go:58-132 | unquoting undoes quoting for every local part but the empty one |
| `Address.QuotedIsValidIff` | framework/address/validation.go:68-110 | the quoted form is a valid mailbox name if and only if the original has no control character |
| `Address.WithDomainRoundTrip` | internal/table/email_with_domain.go:68-85 | the address splits and unquotes back to key and domain if and only if neither is empty and the domain has no at-sign |
| `Address.LookupMulti` | internal/table/email_with_domain.go:78-85 | one address for each domain, in order; each splits and unquotes back to key and domain if and only if neither is empty and the domain has no at-sign |

## Left out

- Imports.ExpandExactly: where a file that is reached declares a snippet under a name imported in a file that reaches it, what the name stands for depends on the pass, and the result is what `ImportContext.ExpandImports` says, no more; `Imports.CycleSurvives` is such a case.
- Imports.ExpandSubstitutes: under the same condition.
- Imports.ImportCyclesFail: under the same condition.
- ParserRoundTrip.FileRoundTrip: for texts whose backslash runs before a quote or the end are even; for others the lexer does not give the texts back, as `Lexer.QuoteRoundTrip` shows.
- ParserFiles.DeclaredFileRoundTrip: under the same condition on texts.
- ParserFiles.DeclaredRoundTrip: for snippet and macro declarations one to a line, macros without a block.
- CheckRunner.Runner.CheckStates: modelled after the sender has been recorded, which `checkConnSender` does before it asks for any state.
- ConfigMap.Map.ProcessWith: which error is reported when several entries fail depends on the order of the entries, as in the code.
- RoutingConfig.ParseLevel: a `reroute` block is a target whose own configuration is read by the same functions; it is not unfolded here.
- File names, columns and texts of error messages; file access; node positions.
- ParserMacros.NoReferenceSurvives: not for files with a word that begins with two dollar signs and ends with a parenthesis; for the shortest of these `ParserMacros.DoubledIsSpliced` says exactly when a reference is left.
- Expansion of environment variables.
- Macro expansion is modelled on values, not in place.
- Public suffix list, IDNA, Unicode normalisation and case folding: parameters.
- Formatting of header fields, the Received field and SMTP codes.
- Closing of modifier states on the error paths of a message: the source state is not closed if its sender rewriting fails, a block's state may be closed twice.
- The variant of the body step that reports per-recipient statuses checks less than the one modelled; only its status translation is modelled.
- Early connection checks, rate limits, message queues, SMTP and IMAP endpoints, storage, DNS, TLS and authentication back ends.
- The blockchain node around the mail server.
- Logging, metrics and command line.
