# A verified model of the CRM's core algorithms

The CRM is mostly handlers over tables; a few small pieces under them carry real algorithms, and this
project models those and proves what they promise. Each module stands for one component:

| modules | component |
|---|---|
| `SqlLexer`, `SqlMeaning`, `ReservedWords`, `OutsideLiterals`, `NullSafety`, `TokenRewrites`, `Refusals`, `Literals`, `Placeholders`, `Translation` | the SQLite to MySQL statement translator |
| `LikeSearch`, `Conditions`, `WhereBuilder`, `WhereMeaning`, `QueryBuilder`, `ContainsFilter` | what a WHERE text says of a row; the condition builder, the search box and the report query compiler |
| `Tenancy`, with `Selection` and `Ordering` | the tenant scope over the shared store |
| `Ledger`, `Invoicing`, `AddOns` | payments, invoice totals and add-on billing |
| `SchemaVerify`, `MigrationPlan`, `MigrationRecovery` | schema comparison, the migration planner, crashed runs |
| `Base32`, `Totp`, `Passwords`, `Sessions` | two-factor codes, temporary passwords, the session heartbeat |
| `Router`, `Dispatch`, `Scheduler`, `Documents` | route ranking and what it makes of a request, report schedules, document versions and locks |

Loops of the source are loops here, with the text, array or table they work on; objects whose methods
assign fields are classes. Each such method is proved against a function or predicate, and the
lemmas about that function carry the results. A handler is one atomic step on a store, and results
about handlers hold over every run of steps. A gateway's answer, the clock, random words, HMAC and
permission checks are inputs. `Wrappers` and `Values` hold an optional value and a column's value, `Whitespace` is
what JavaScript trims.

The meaning of a condition is not given by its builder: `Conditions` lexes the text, splits it at OR, AND and
parentheses as SQL does, reads columns, operators and placeholders from the tokens, and deals the values out
placeholder by placeholder. How values compare, what LIKE folds and escapes, and any condition it does not
read are the database's, and every result about meaning holds for every such database.

`dafny verify dfyconfig.toml` checks everything.

## What the proofs found

Several promises hold only under a condition. The model keeps the code as it is, proves exactly when
the promise is met, and where useful gives the shortest input that breaks it.

- Verifying a payment again after a refund settles it a second time: `verify` stops early only on
  `success` (`src/modules/billing.js:740`). From sound books an invoice's paid sum stops being what its
  payments hold exactly when a refunded payment is verified again and either the gateway confirms it or
  part of it was still held (`BalancedUnlessReverified`, `ReverifyingCountsTwice`, `ARefundIsSettledAgain`).
- A checkout opened before its invoice is voided can still be verified, and the void invoice becomes paid;
  nothing else moves a void invoice (`VoidUnlessConfirmed`, `RunsKeepVoid`, `AVoidInvoiceIsPaid`).
- Two checkouts for the same dues can both be verified; an invoice stays squared exactly when no
  settlement exceeds what is due (`SquaredUnlessOverpaid`, `TwoCheckoutsOverpay`).
- `updateWhere` keeps every row with its owner exactly when its patch names no other owner
  (`PatchByConditionKeepsOwners`); `update` always does.
- The migration comments say a crashed baseline import can be re-run. It can while a table is missing;
  once every table exists and an index no later file adds is missing, the next run refuses
  (`CrashedImport`).
- A file that is both covered by the baseline and an incremental file, as `0015_platform_support_access.sql`
  is, stops the first install at a duplicate record; the next run carries on, and two always suffice
  (`StoppedByCoveredFiles`, `TwoRunsSuffice`).
- A taken id is the one thing of another tenant that can be noticed: an insert or a patch by condition is
  refused over an id another tenant's row holds, and otherwise nothing is (`OwnStep`, `ATakenIdIsNoticed`).
- A file that drops what the baseline expects, with no later file putting it back, leaves a finished run
  incomplete, and nothing else does (`FinishedRunIsComplete`).
- The router's comments say declaration order does not decide between a literal and a parameter. It
  can, when a route that ties with both stands between them (`AnotherDepthHidesALiteral`,
  `OvertakesExactly`). A table without wildcards sends every request to a most specific route exactly when
  whatever an inverted pair of routes shares is taken by a route tried before both
  (`MostSpecificExactly`); ordinary tables of mixed depth meet that (`AnOrdinaryTableIsMostSpecific`).
- An `IS ?` outside quotes is left for MySQL, which has no meaning for it, exactly when no name stands directly
  before its white space in the same stretch between quotes (`IsLeftExactly`, and `LeftInTranslation` for
  the whole translation). That is so after a quoted column, after a literal, after the parenthesis of
  `COALESCE(a, b) IS ?`, and after a reserved column the translator has just backticked itself
  (`QuotedColumnsAreMissed`, `ExpressionsAreMissed`, `ReservedColumnsAreMissed`).
- An OR added to the builder, or to a dataset's condition, without parentheses escapes the tenant
  condition before it (`LooseOrEscapes`, `LooseBaseLetsOthersIn`); no condition in the source does that.
- Writing the heartbeat once a minute shortens the idle limit by up to 59 999 ms, and by no more
  (`HeartbeatBound`).
- Raising a query about a locked document leaves it locked with status `query_raised`
  (`LocksStaySettledUnlessQueried`, `AQueryUnsettlesALock`).
- The report builder's "contains" binds its value unescaped, unlike the list search box. Up to the letters
  LIKE folds, it finds exactly the cells containing the value if and only if the value has no wildcard and,
  on MySQL, no backslash (`ContainsFindsContaining`, with `WildcardsFindMore`, `BackslashMisses` and
  `OtherCaseIsFound`).
- A bundle asks for its setup fees to be acknowledged even when all of them have been charged before, and
  switches on what is not available, neither of which a single activation does (`BundledExactlyWhen`,
  `ActivatedExactlyWhen`).
- A scope narrowed to some companies is narrowed in what it reads only: its updates and deletions reach every row of
  the organisation (`NarrowedReads`, `UpdateWrites`, `DeleteRemoves`).
- To the refusal of `IS NOT ?` a dollar sign ends a word, so `x$is NOT ?` is refused, and a digit directly before
  `is` hides it (`RefusedExactly`).
- `?0` passes the translator and binds nothing (`OnlyZeroIsUnbound`).
- An apostrophe in a comment misleads the backslash walk (`CommentBreaksDoubling`); a reserved word against a
  backtick misleads the quoting walk (`QuotingKeepsTokens`).

## Model

| member | source | states |
|---|---|---|
| `SqlLexer.RenderLex` | src/db/dialect.js:80-138 | the reference lexer of both dialects splits every text without losing a character |
| `SqlLexer.FirstOfText` | src/db/dialect.js:80-138 | a well-formed token followed by text that cannot run into it is read back as that token |
| `ReservedWords.QuoteReservedIdentifiers` | src/db/dialect.js:80-138 | the walk writes the statement's tokens with the reserved bare words backticked |
| `ReservedWords.QuotingIsIdempotent` | src/db/dialect.js:80-138 | quoting twice is quoting once, for every text, comments and unclosed quotes included |
| `ReservedWords.QuotingKeepsTokens` | src/db/dialect.js:80-138 | the result lexes to the input's tokens with exactly the reserved bare words backticked, everything else byte for byte the same, if and only if no reserved word stands against a backtick |
| `ReservedWords.OnlyKeyAndTrigger` | src/db/dialect.js:50-138 | in what MySQL is sent no bare word is `key` or `trigger`, in any case, and these two are all that was quoted |
| `OutsideLiterals.MapOutsideLiterals` | src/db/dialect.js:209-259 | stretches between spans are rewritten, spans are copied; if the rule throws about any stretch, nothing is returned |
| `OutsideLiterals.SpansSurvive` | src/db/dialect.js:229-259 | for every comment-free statement with nothing double-quoted: whatever a rewrite does that keeps text without quotes and comments so, the literals and quoted names of the result are exactly those of the statement, unchanged and in order |
| `NullSafety.NullSafeIsQuiet` | src/db/dialect.js:200-218 | the `IS ?` rewrite is such a rewrite, and so is leaving a statement alone |
| `NullSafety.NullSafeKeepsSpans` | src/db/dialect.js:209-218 | so it never edits a value somebody typed |
| `NullSafety.RewrittenExactly` | src/db/dialect.js:214 | a stretch is changed at all exactly when a name in it is followed by `IS ?` |
| `NullSafety.IsLeftExactly` | src/db/dialect.js:198-218 | for every statement: an `IS ?` stands outside the spans of the result if and only if one of the statement had no character of a name directly before it in its stretch |
| `NullSafety.ExpressionsAreMissed` | src/db/dialect.js:209-218 | after any character but one of a name or white space, a closing parenthesis for one, `IS ?` is left |
| `NullSafety.QuotedColumnsAreMissed` | src/db/dialect.js:209-218 | so it is after a backticked column or a literal, whatever quoteless text stands before and whatever text after |
| `NullSafety.ReservedColumnsAreMissed` | src/db/dialect.js:150-218 | so it is after a reserved column, which the translator has backticked before |
| `TokenRewrites.RulesOnTokens` | src/db/dialect.js:209-218 | both rules between quotes change the tokens of a statement only so: the null-safe operator where a name is asked `IS ?`, backticks for double quotes |
| `TokenRewrites.AsksLeft` | src/db/dialect.js:209-218 | among the tokens an `IS ?` is left if and only if one had no bare name before it |
| `Refusals.RefusedOnTokens` | src/db/dialect.js:209-218 | for every comment-free statement with nothing double-quoted but plain names: the rule throws if and only if the tokens have the bare word `is`, blanks, the bare word `not`, blanks and a placeholder in a row |
| `Literals.DoubleBackslashesInLiterals` | src/db/dialect.js:292-324 | the walk doubles backslashes inside single quotes only, and closes a literal nothing closed |
| `Literals.DoublingKeepsMeaning` | src/db/dialect.js:292-324 | for every statement whose comments are comments to both dialects and hold no quote: MySQL reads the result with the same tokens and string values as SQLite reads the input, if and only if every literal is closed and nothing is double-quoted |
| `Literals.CommentBreaksDoubling` | src/db/dialect.js:292-324 | with an apostrophe in a comment the two readings can differ |
| `Placeholders.RebindPlaceholders` | src/db/dialect.js:345-396 | the placeholder loop, its rejections and its bound values |
| `Placeholders.RewritingKeepsShape` | src/db/dialect.js:353-384 | the rewrite changes nothing between placeholders, question marks inside quotes included, and leaves every hole bare |
| `Placeholders.RewritingBindsEveryHole` | src/db/dialect.js:345-396 | as many values as holes, the k-th hole receiving what the k-th numbered placeholder named; bare statements pass unchanged; mixed forms and numbers past the bound values are the only rejections |
| `Placeholders.OnlyZeroIsUnbound` | src/db/dialect.js:387-395 | an accepted statement leaves a hole without a value exactly when it names parameter zero |
| `Translation.ToMysqlParams` | src/db/dialect.js:146-396 | quoting, the two rules between quotes with the refusal of `IS NOT ?`, doubling and rebinding in the source's order; what is refused is `RefusedExactly` |
| `Translation.RefusedExactly` | src/db/dialect.js:146-218 | the translator refuses a statement for `IS NOT ?` if and only if the tokens of the statement, before anything is quoted, have it; `IS NOT NULL` alone is no reason |
| `Translation.TextKeepsMeaning` | src/db/dialect.js:146-227 | the translated text reads in MySQL, atom by atom, as the original reads in SQLite with `<=> ?` for `IS ?` after a bare name: names, keywords and literal values alike |
| `Translation.UnaskedReadsAlike` | src/db/dialect.js:146-227 | a statement that asks no name `IS ?` reads exactly alike |
| `Translation.LeftInTranslation` | src/db/dialect.js:146-227 | MySQL is sent an `IS ?` if and only if the statement has one that no bare, unreserved name stands directly before |
| `Translation.RewrittenHoles` | src/db/dialect.js:209-218 | the null-safe rule changes no placeholder and no placeholder's number |
| `Translation.TranslationKeepsMeaning` | src/db/dialect.js:326-396 | end to end: with its holes filled the way each engine fills them, the translated statement reads as the original with its own parameters and MySQL's operator for `IS ?`; it is refused exactly when its tokens have `IS NOT ?`, when it mixes the two forms, or for a parameter that was not bound |
| `LikeSearch.SearchFindsContaining` | src/db/client.js:227-235 | the bound pattern, under LIKE with that escape character, matches a lower-cased value exactly when the value contains the lower-cased term, for every term |
| `WhereBuilder.Where.constructor` | src/db/client.js:206-207 | a new builder is empty |
| `WhereBuilder.Where.Add` | src/db/client.js:209-212 | any text and its values are added together, an empty text adds nothing |
| `WhereBuilder.Where.EqIf` | src/db/client.js:214-218 | only a meaningful value adds a condition; an unsafe column is refused |
| `WhereBuilder.Where.InIf` | src/db/client.js:220-225 | one placeholder a value, nothing for an empty list |
| `WhereBuilder.Where.SearchIf` | src/db/client.js:227-235 | one search condition with the pattern once a column; an absent or blank term adds nothing |
| `WhereBuilder.TermIsTrimmed` | src/db/client.js:227-229 | what is searched for is the term without the space around it, nothing for a blank one |
| `WhereBuilder.Where.BetweenIf` | src/db/client.js:237-241 | each truthy bound adds its comparison |
| `WhereBuilder.JoinedIsBalanced` | src/db/client.js:243-244 | the joined text has exactly as many placeholders as there are values |
| `WhereBuilder.EachGetsItsOwn` | src/db/client.js:206-245 | filled by position, every condition gets its own values and none are left over |
| `WhereBuilder.ConditionsAreAligned` | src/db/client.js:206-245 | whatever filters were added, the built text passes the translator's placeholder step unchanged and stays aligned with its values |
| `Conditions.JoinedByAnd` | src/db/client.js:243-244 | two conditions with matched parentheses and no loose OR, joined by AND, say what each says with its own values |
| `Conditions.IdentExactly` | src/db/client.js:17-25 | an accepted column is a plain name, or two with one dot between |
| `WhereMeaning.JoinedSays` | src/db/client.js:243-244 | the joined text, read as SQL reads it and filled in order, says exactly the conjunction of what every condition says with its own values; `1=1` says true |
| `WhereMeaning.AddingNarrows` | src/db/client.js:209-212 | one more condition narrows what was built by exactly what it says |
| `WhereMeaning.CompareSays` | src/db/client.js:214-241 | the text of a comparison compares that column with the bound value, by that operator |
| `WhereMeaning.EqSays` | src/db/client.js:214-218 | an equality condition keeps exactly the rows whose column has the value |
| `WhereMeaning.BetweenSays` | src/db/client.js:237-241 | what a range adds keeps exactly the rows whose column lies within the bounds that are given, both included; an empty, absent or zero bound does not act |
| `WhereMeaning.InSays` | src/db/client.js:220-225 | a list condition is true exactly when the column equals one of the values |
| `WhereMeaning.SearchSays` | src/db/client.js:227-235 | the search condition keeps a row exactly when one of the columns contains the term, letters folded, whatever wildcards, backslashes and columns there are |
| `WhereMeaning.LooseOrEscapes` | src/db/client.js:209-212 | an OR added without parentheses frees its second half from the conditions before it, exactly |
| `QueryBuilder.BuildWhere` | src/modules/analytics.js:457-472 | the first filter with an unknown field or operator is refused, else the clause holds the tenant's, the dataset's and every filter's condition with their values |
| `QueryBuilder.BuildQuery` | src/modules/analytics.js:440-472 | an unknown dataset, the first unknown field, no field, then the filters, in this order |
| `QueryBuilder.ClauseMeansItsFilters` | src/modules/analytics.js:457-472 | the text of the compiled clause, lexed and read as SQL with its placeholders filled in order, keeps a row exactly when it is the tenant's, meets the dataset's condition and meets every filter; valueless operators shift nothing |
| `QueryBuilder.NamesAsk` | src/modules/analytics.js:139-150 | what each of the ten operator names asks of a cell, and that there are no others |
| `QueryBuilder.NotDeletedIsOneConjunct` | src/modules/analytics.js:40-59 | the catalogue's "not deleted" conditions are one conjunct each, as the theorem asks, true exactly of rows not deleted |
| `QueryBuilder.OneIsOneIsOneConjunct` | src/modules/analytics.js:76-126 | so is its other condition, which always holds |
| `QueryBuilder.LooseBaseLetsOthersIn` | src/modules/analytics.js:457-459 | a dataset condition with a loose OR keeps rows of any tenant |
| `ContainsFilter.ContainsFindsContaining` | src/modules/analytics.js:146 | on either database, up to the letters LIKE folds: "contains" finds exactly the cells that contain the value if and only if the value has no wildcard and no character that escapes |
| `ContainsFilter.WildcardsFindMore` | src/modules/analytics.js:146 | a wildcard finds a cell that does not contain it |
| `ContainsFilter.BackslashMisses` | src/modules/analytics.js:146 | where the backslash escapes, a value with one misses the very same cell |
| `ContainsFilter.OtherCaseIsFound` | src/modules/analytics.js:146 | a letter finds its other case |
| `Tenancy.Db.Insert` | src/db/client.js:117-125 | unsafe names, an empty row and a taken id are refused, else the row is appended and no other table changes |
| `Tenancy.Db.Update` | src/db/client.js:139-153 | every row the condition picks is patched, every other row and table is as it was, the answer is how many were picked; an empty condition and an id for two rows are refused |
| `Tenancy.ClashIsTwoRows` | src/db/client.js:139-153 | an update is refused over its id exactly when it would leave two rows with it |
| `Tenancy.Db.DeleteWhere` | src/db/client.js:155-165 | exactly the rows the condition does not pick are left, in order, and the others counted; an empty condition is refused |
| `Tenancy.TenantScope.First` | src/db/tenancy.js:99-105 | a row the scope and the filters show with none of them before it, or none exactly when they show none |
| `Tenancy.TenantScope.All` | src/db/tenancy.js:126-157 | of exactly the rows shown, as many as the limit allows, ordered by the keys or the table's default, and none left out belongs before one listed |
| `Tenancy.TenantScope.Count` | src/db/tenancy.js:159-163 | the number of rows the scope and the filters show |
| `Tenancy.TenantScope.Insert` | src/db/tenancy.js:188-207 | the owner is stamped, another owner refused |
| `Tenancy.TenantScope.Update` | src/db/tenancy.js:210-222 | the owner condition is added, owner and id dropped from the patch |
| `Tenancy.TenantScope.UpdateWhere` | src/db/tenancy.js:224-232 | the owner condition is added, the patch kept as it is |
| `Tenancy.TenantScope.Delete` | src/db/tenancy.js:234-238 | the owner condition is added |
| `Tenancy.TenantScope.SoftDelete` | src/db/tenancy.js:240-243 | an update of the deletion time |
| `Tenancy.NarrowedReads` | src/db/tenancy.js:84-125 | a scope narrowed to companies answers only with rows whose company (whose id, on the companies table) is among them; an empty list shows and counts nothing |
| `Tenancy.FilteredReads` | src/db/tenancy.js:96-157 | every row answered is stored, is the organisation's, and equals each meaningful filter |
| `Tenancy.OwnRowIsShown` | src/db/tenancy.js:77-163 | a row of the organisation, in the scope's companies and equal on every meaningful filter, is listed, is counted, and keeps the first read from answering with none |
| `Tenancy.CountedExactly` | src/db/tenancy.js:159-163 | what is counted is the places of exactly those rows |
| `Tenancy.NewestFirst` | src/db/tenancy.js:126-157 | without an order asked for, the newest comes first, by the first of created_at, updated_at and id that the table has |
| `Tenancy.ReadRefusedExactly` | src/db/tenancy.js:96-163 | a read changes nothing and is refused exactly over a table that is no organisation's or a filter that is not a plain name |
| `Tenancy.InsertWrites` | src/db/tenancy.js:188-207 | the row stored, column by column: what was given, the owner, the times the table has columns for, and nothing else |
| `Tenancy.InsertRefusedExactly` | src/db/tenancy.js:188-207 | refused exactly without an organisation or for another one's; a conflict only over an id some row holds; a refusal changes nothing |
| `Tenancy.UpdateWrites` | src/db/tenancy.js:210-222 | the rows after an update, column by column: what was given but owner and id, the time of the update, in the scope's row of that id alone |
| `Tenancy.UpdateWhereWrites` | src/db/tenancy.js:224-232 | the same for a patch by condition, owner and id included, in the scope's rows equal on every column named |
| `Tenancy.SoftDeleteWrites` | src/db/tenancy.js:240-243 | the deletion time, and the time of the update, in the scope's row of that id alone |
| `Tenancy.DeleteRemoves` | src/db/tenancy.js:234-238 | what is left is every row but the scope's of that id, and those are counted |
| `Tenancy.UnsafeNamesAreRefused` | src/db/client.js:117-165 | a name that is not plain is refused wherever it is given, and nothing changes |
| `Tenancy.OthersUntouched` | src/db/tenancy.js:77-243 | no operation of one tenant's scope changes a row of another tenant in any table |
| `Tenancy.AnswersAreOwn` | src/db/tenancy.js:99-163 | every row returned or stored belongs to the scope's tenant |
| `Tenancy.OwnersStay` | src/db/tenancy.js:209-243 | no update changes a row's owner |
| `Tenancy.OwnStep` | src/db/tenancy.js:77-243 | what a tenant is answered, and the rows it is left with, depend on its own rows only, exactly unless another tenant's row holds the id the operation would otherwise have put in |
| `Tenancy.OthersMightAsWellBeAbsent` | src/db/tenancy.js:77-243 | non-interference over whole runs, a tenant's own conflicts included: its answers and rows are those of the run with every other tenant's operations removed, if no id it puts in is held or brought in by others |
| `Tenancy.ATakenIdIsNoticed` | src/db/tenancy.js:188-207 | two inserts of one id: the second tenant is refused over the first one's row |
| `Tenancy.PatchByConditionKeepsOwners` | src/db/tenancy.js:224-232 | a patch by condition keeps every owner exactly when it names none or the scope's own |
| `Ledger.Store.Raise` | src/modules/billing.js:1006-1036 | a new invoice owes its total |
| `Ledger.Store.Checkout` | src/modules/billing.js:616-733 | the guards on status and amount, a failed or an open payment |
| `Ledger.Store.Verify` | src/modules/billing.js:736-796 | an early answer on success only, the gateway's refusal, else settlement |
| `Ledger.Store.Record` | src/modules/billing.js:799-841 | an offline payment up to the dues is settled at once |
| `Ledger.Store.Settle` | src/modules/billing.js:1046-1085 | the payment, the trail and the invoice's sums move together |
| `Ledger.Store.GiveBack` | src/modules/billing.js:843-912 | a refund up to what is refundable moves the payment, the trail and the invoice |
| `Ledger.Store.VoidInvoice` | src/modules/billing.js:468-478 | only an invoice without payments is voided |
| `Ledger.CheckoutOpens` | src/modules/billing.js:616-733 | exactly one payment is appended, on that invoice, unsettled, for what was asked or else for the dues, if and only if the invoice is neither paid nor void and the amount is positive, within the dues and not under 100 when asked; nothing else changes but a note, and each refusal is said |
| `Ledger.RecordSettles` | src/modules/billing.js:799-841 | an offline payment is recorded if and only if it is positive and within the dues of an invoice that is not void; exactly its amount moves |
| `Ledger.VerifySettles` | src/modules/billing.js:736-796 | which payments a verification settles, for how much, and what it leaves alone |
| `Ledger.GiveBackReturns` | src/modules/billing.js:843-912 | a refund goes through if and only if the payment stands settled, the amount is positive and within what is left, and the gateway, where there is one, agrees; what was asked, or else all that is left, is returned, and refunded means nothing is left |
| `Ledger.InvoiceSteps` | src/modules/billing.js:468-478 | an invoice is voided if and only if nothing is paid on it, and nothing else of it changes |
| `Ledger.StepKept` | src/modules/billing.js:616-912 | every step keeps each invoice's paid sum equal to what the trail captured less what it gave back |
| `Ledger.EveryRunIsConserved` | src/modules/billing.js:468-1085 | over every run, with no assumption, an invoice's paid sum is the trail's net over its payments and never negative |
| `Ledger.RefundIsCovered` | src/modules/billing.js:843-912 | in every reachable state an invoice holds what a refund takes back, so the refund's clamp never acts |
| `Ledger.SoundIsBalanced` | src/modules/billing.js:736-912 | in sound books the paid sum is the sum of amount less refunded over settled payments |
| `Ledger.SoundUnlessReverified` | src/modules/billing.js:736-796 | a step keeps every payment row in step with the trail, its status with its refunds, exactly when it does not verify a refunded payment |
| `Ledger.BalancedUnlessReverified` | src/modules/billing.js:736-796 | from sound books a step keeps every paid sum equal to what the payment rows hold, exactly unless it verifies a refunded payment and the gateway confirms or part was still held |
| `Ledger.RunsStayBalanced` | src/modules/billing.js:468-1085 | over every run that verifies no refunded payment, paid is the sum of amount less refunded |
| `Ledger.ReverifyingCountsTwice` | src/modules/billing.js:736-796 | verifying a refunded payment leaves the invoice ahead by the whole amount |
| `Ledger.ARefundIsSettledAgain` | src/modules/billing.js:616-912 | five steps from empty books to an invoice ahead of its payments by the whole amount |
| `Ledger.SquaredUnlessOverpaid` | src/modules/billing.js:1073-1085 | a step keeps paid plus due equal to the total, due non-negative and paid status exactly at zero due, exactly when it settles no more than is due |
| `Ledger.CarefulRunsStaySquared` | src/modules/billing.js:468-1085 | so does every run of such steps |
| `Ledger.TwoCheckoutsOverpay` | src/modules/billing.js:616-796 | five steps that pay every invoice twice over |
| `Ledger.VoidUnlessConfirmed` | src/modules/billing.js:736-796 | a void invoice with nothing paid stays void after a step, and unpaid, exactly unless the step confirms a payment opened for it |
| `Ledger.VoidMeansUnpaid` | src/modules/billing.js:468-1085 | over every run, nothing is paid on an invoice that is void |
| `Ledger.RunsKeepVoid` | src/modules/billing.js:468-912 | in books reached by any run, a void invoice is void throughout any further run if and only if no step of it confirms a payment opened for it |
| `Ledger.AVoidInvoiceIsPaid` | src/modules/billing.js:468-796 | four steps to a void invoice marked paid |
| `Invoicing.CreateInvoice` | src/modules/billing.js:961-1036 | the accumulated totals are the totals of the priced items |
| `Invoicing.TaxGoesByPlace` | src/modules/billing.js:970-991 | integrated tax alone for a place other than the supplier's state, the centre's and the state's alone for any other or none; either way all of the tax |
| `Invoicing.LineCosts` | src/modules/billing.js:974-977 | a line's net is price times quantity to the nearest paisa less the discount, never negative, with the defaults of what is not given |
| `Invoicing.LineIsTaxed` | src/modules/billing.js:978 | its tax is that net's percentage to the nearest paisa, 18 percent by default |
| `Invoicing.ItemSplit` | src/modules/billing.js:978-1000 | the two halves of an item's tax differ by at most a paisa and are not negative for a rate that is not |
| `Invoicing.TaxIsSplitFairly` | src/modules/billing.js:961-1004 | tax total is the sum of the items' tax however split, the invoice total does not depend on the place of supply, and the shares differ by at most a paisa an item |
| `AddOns.Store.Activate` | src/modules/addons.js:202-286 | availability, a running subscription, the acknowledged setup fee, then the row and the lines |
| `AddOns.Store.Deactivate` | src/modules/addons.js:334-356 | a running subscription is cancelled |
| `AddOns.Store.Bundle` | src/modules/addons.js:414-491 | every add-on of the bundle that is not running is switched on, with its lines |
| `AddOns.ActivatedExactlyWhen` | src/modules/addons.js:202-286 | an activation goes through if and only if the add-on is known, available and not running and a fee still to be charged is acknowledged; exactly then its lines are written, the setup exactly for such a fee |
| `AddOns.BundledExactlyWhen` | src/modules/addons.js:414-491 | a bundle is refused if and only if it has a fee, charged before or not, and none is acknowledged; else all of it runs |
| `AddOns.DeactivatedExactlyWhen` | src/modules/addons.js:334-356 | a running add-on stops running and nothing is billed; any other is refused |
| `AddOns.SetupIsCharged` | src/modules/addons.js:217-286 | a step writes one setup line if and only if it starts the add-on, its fee is positive and none was written before |
| `AddOns.StepKeeps` | src/modules/addons.js:202-491 | one row an add-on, charged exactly when its one setup line exists, a period line exactly when it starts |
| `AddOns.SetupIsChargedOnce` | src/modules/addons.js:217-286 | over every run: at most one row and one setup line an add-on, the row saying charged exactly when the line exists, the line existing exactly when the add-on was started at some moment when it had a fee, and as many period lines as starts |
| `SchemaVerify.CompareSchema` | src/db/schema-verify.js:74-132 | the loops collect exactly the missing and the explained tables, columns and indexes |
| `SchemaVerify.MatchesMeansCovered` | src/db/schema-verify.js:74-132 | a database matches exactly when everything expected is there or about to be added, whatever else it has |
| `MigrationPlan.FinishedRunConverges` | src/db/migration-plan.js:26-163 | after a safe plan is carried out the next plan is up to date exactly when every source migration has a route, and every later run changes nothing |
| `MigrationRecovery.ImportMakesWhatIsParsed` | src/db/schema-verify.js:30-60 | an uninterrupted import makes what the file is parsed to expect |
| `MigrationRecovery.CrashedImport` | src/db/migration-plan.js:86-146 | the next plan after a crash at any statement of the import: start again, resume, adopt or refuse, each exactly when |
| `MigrationRecovery.CrashedInstall` | scripts/migrate-runner.mjs:298-405 | the same for a crash at any event of a first install, its records and incremental files included |
| `MigrationRecovery.AdoptedExactlyWhen` | src/db/migration-plan.js:86-146 | a database is adopted exactly when it has tables, no record of the baseline, and everything expected but what some statement of an incremental file adds |
| `MigrationRecovery.ResumedExactlyWhen` | src/db/migration-plan.js:86-116 | the baseline is imported over a database with tables if and only if it is not on record, an expected table is missing, every table there has its expected columns but those a file adds, and none is a stranger's |
| `MigrationRecovery.RefusedExactlyWhen` | src/db/migration-plan.js:55-128 | each reason to refuse, said of the schemas and files: a migration that nothing brings on a recorded database, or tables that are neither all of the baseline nor an unfinished import of it |
| `MigrationRecovery.AppliedExactlyWhen` | src/db/migration-plan.js:148-163 | an empty database is given the baseline; a recorded one what is pending, or nothing exactly when nothing is |
| `MigrationRecovery.PlanOrders` | src/db/migration-plan.js:55-163 | what each plan applies, records and leaves pending |
| `MigrationRecovery.BaselineCompletes` | scripts/migrate-runner.mjs:74-125 | resuming never fails, loses nothing and leaves every expected table, index and unexplained column |
| `MigrationRecovery.FinishedRunIsComplete` | scripts/migrate-runner.mjs:74-125 | whether applied, resumed or adopted, a run that finishes leaves everything the baseline expects exactly when no incremental file drops or renames some of it away with no later one putting it back |
| `MigrationRecovery.CrashKeepsProgress` | src/db/migration-plan.js:135-163 | once the baseline is recorded no crash leads to a refusal or to a recorded file being run again |
| `MigrationRecovery.StoppedByCoveredFiles` | scripts/migrate-runner.mjs:298-405 | when no statement fails, a plan is carried out to the end exactly when no pending file is among the names recorded for the baseline |
| `MigrationRecovery.TwoRunsSuffice` | scripts/migrate-runner.mjs:298-405 | two runs whose statements do not fail always end up to date |
| `Base32.Encode` | src/auth/totp.js:15-27 | on a 32-bit accumulator: the encoding of RFC 4648 section 6 without padding, of length ceil(8n/5) |
| `Base32.Decode` | src/auth/totp.js:29-44 | the whole bytes of the cleaned text, or an error exactly when a character is not of the alphabet |
| `Base32.EncodingIsUnique` | src/auth/totp.js:15-27 | a byte sequence has one encoding only |
| `Base32.AlphabetIsStandard` | src/auth/totp.js:13-27 | the letters are those of RFC 4648 section 6, in its order |
| `Base32.RoundTrip` | src/auth/totp.js:15-44 | decoding the encoding, in any case and with spaces, dashes or padding, gives the bytes back |
| `Totp.SetUint32` | src/auth/totp.js:52-55 | four bytes of the low 32 bits, the rest of the buffer unchanged |
| `Totp.CounterIsBigEndian` | src/auth/totp.js:52-55 | the two stores put the counter in eight bytes, most significant first, modulo 2^64 |
| `Totp.ComputeHotp` | src/auth/totp.js:51-68 | the dynamic truncation and the decimal code |
| `Totp.TruncationIsDynamic` | src/auth/totp.js:61-66 | the low four bits of the digest's last byte say where the four bytes are taken, the top bit of the first dropped |
| `Totp.TheStandardsExample` | src/auth/totp.js:61-66 | the example of RFC 4226 section 5.4 |
| `Totp.CodeHasItsDigits` | src/auth/totp.js:61-67 | a code is exactly the wanted number of digits, the lowest of the 31-bit truncation |
| `Totp.VerifyTotp` | src/auth/totp.js:80-91 | the first matching step of the window, else none; a malformed token is no match, a malformed secret an error |
| `Totp.CounterCountsPeriods` | src/auth/totp.js:71-91 | steps begin every period, counted from 1970 |
| `Totp.AcceptedWithinWindow` | src/auth/totp.js:71-91 | a code made at most the window's periods before or after is accepted, with spaces in it or not |
| `Totp.OnlyWindowCodesAreAccepted` | src/auth/totp.js:80-91 | a token is accepted exactly when it is the code of a step in the window |
| `Scheduler.NextIsOneLater` | src/modules/analytics.js:540-553 | rolling a date over month and leap-year ends is one day |
| `Scheduler.DaysKeepOrder` | src/modules/analytics.js:540-553 | the day count orders Gregorian dates and tells them apart |
| `Scheduler.WeekdayMovesOn` | src/modules/analytics.js:540-553 | the weekday moves on by one each day |
| `Scheduler.KnownWeekdays` | src/modules/analytics.js:540-553 | and is the calendar's on two known dates |
| `Scheduler.YearsHaveTheirDays` | src/modules/analytics.js:540-553 | leap years, leap centuries and their Februaries have their days |
| `Scheduler.NextRunAt` | src/modules/analytics.js:540-553 | terminates with the earliest moment strictly after now, on the hour, that fits the frequency |
| `Scheduler.NextRunIsUnique` | src/modules/analytics.js:540-553 | there is only one such moment |
| `Scheduler.NextRunIsSoon` | src/modules/analytics.js:540-553 | it is at most a day, a week or 31 days away |
| `Sessions.Table.Create` | src/auth/session.js:29-67 | a session with a free id and token hash is stored, not revoked |
| `Sessions.Table.ResolveSession` | src/auth/session.js:88-105 | unknown, revoked and expired tokens get nothing, an idle session is revoked |
| `Sessions.Table.TouchSession` | src/auth/session.js:108-112 | the heartbeat is written to the row of that id exactly when a minute has passed since the session was last seen as it was read |
| `Sessions.Table.RevokeSession` | src/auth/session.js:123-126 | every row of that id is revoked for that reason, every other row is as it was |
| `Sessions.SignedOutById` | src/auth/session.js:123-126 | its token never lets anybody in again, whatever happens |
| `Sessions.Table.RevokeAllUserSessions` | src/auth/session.js:129-135 | afterwards the user has no live session but the kept one; the rows that changed are theirs; the answer is how many live sessions the user lost |
| `Sessions.Table.Authenticate` | src/auth/middleware.js:61-104 | the deployment's limit, the policy's limit, then the heartbeat |
| `Sessions.LetInExactlyWhen` | src/auth/middleware.js:61-104 | a request is let in if and only if its session is neither revoked, expired nor idle beyond either limit; exactly then a heartbeat a minute old is renewed, and exactly an idle one is revoked |
| `Sessions.StrangersStayOut` | src/auth/session.js:88-92 | no token, or one of no session, lets nobody in |
| `Sessions.RevokedForGood` | src/auth/session.js:88-126 | a revoked session's token never lets anybody in again, whatever happens |
| `Sessions.SignedOutEverywhere` | src/auth/session.js:129-135 | after signing a user out none of their tokens works again but that of the session kept, and every other session is as it was |
| `Sessions.OnlyItsOwnRequests` | src/auth/session.js:88-135 | a session moves only by requests with its own token, their heartbeats, or by revocation |
| `Sessions.HeartbeatBound` | src/auth/middleware.js:61-104 | requests at most `gap` apart keep every session alive until it expires if and only if the gap is at most the stricter limit less 59 999 ms |
| `Sessions.SilenceIsCutOff` | src/auth/middleware.js:76-79 | after a silence longer than the limit the next request is never let in |
| `Passwords.Words.RandomBelow` | src/auth/password.js:87-94 | rejection sampling: the first accepted word decides |
| `Passwords.ChoicesAreUnbiased` | src/auth/password.js:86-94 | every value comes from exactly max / limit accepted words |
| `Passwords.FewAreRejected` | src/auth/password.js:88-94 | fewer words are refused than there are values |
| `Passwords.ShuffleInPlace` | src/auth/password.js:76-81 | the in-place shuffle |
| `Passwords.ShuffleIsFair` | src/auth/password.js:76-81 | index choices and orders of distinct elements correspond one to one |
| `Passwords.GenerateTemporaryPassword` | src/auth/password.js:69-83 | one character a class, filled to the wanted length, shuffled |
| `Passwords.TemporaryPasswordPasses` | src/auth/password.js:55-83 | length max(12, length), an order of what was drawn with every class in it, and within the default policy exactly up to 256 characters |
| `Passwords.NothingIsMisread` | src/auth/password.js:55-83 | no letter or digit in it can be taken for another |
| `Passwords.CheckPasswordPolicy` | src/auth/password.js:100-137 | the errors are exactly the rules broken, in order; ok exactly when none is; the score's cap never acts |
| `Passwords.ProblemsMean` | src/auth/password.js:111-121 | what each error says of the password, both ways |
| `Passwords.AddressesAreRefused` | src/auth/password.js:122-128 | a password holding four or more characters of what stands before the @ of an address is refused, in any case |
| `Router.CompareRank` | src/http/router.js:51-59 | the first differing digit decides |
| `Router.TieIsPrefix` | src/http/router.js:51-59 | two ranks tie exactly when one is a beginning of the other |
| `Router.FirstIsTransitive` | src/http/router.js:51-59 | being more specific is transitive at any depths |
| `Router.TiesAreTransitiveUnlessForked` | src/http/router.js:51-59 | ties carry over in a table exactly when no rank is the common beginning of two that part ways |
| `Router.EqualDepthTiesAreTransitive` | src/http/router.js:51-59 | so they do in a table of equal depth |
| `Router.MatchFixesDepth` | src/http/router.js:12-49 | patterns without a wildcard that match one path have equal depth |
| `Router.BetterKindIsFirst` | src/http/router.js:25-59 | literal beats parameter beats wildcard where two patterns first differ in kind |
| `Router.FitsBySegments` | src/http/router.js:12-23 | a path fits a pattern segment by segment: the same text, or anything but nothing for a parameter |
| `Router.WildcardTakesTheRest` | src/http/router.js:12-23 | a wildcard takes whatever begins with its prefix |
| `Router.Table.Add` | src/http/router.js:72-77 | a route is appended and the cached order dropped |
| `Router.Table.Mount` | src/http/router.js:100-111 | a child's routes under a prefix, its root with and without a trailing slash |
| `Router.MountedAre` | src/http/router.js:96-111 | the routes a mount adds, root with and without a slash, and no others |
| `Router.Table.OrderedRoutes` | src/http/router.js:80-85 | the cached order is never stale |
| `Router.OrderIsSorted` | src/http/router.js:80-85 | with ties that carry over, a stable order is sorted pairwise, ties by declaration |
| `Router.Table.Match` | src/http/router.js:114-127 | the first route in order that matches path and method, else the methods of the matching ones |
| `Router.AnyOrderFindsAHandler` | src/http/router.js:114-127 | in any order whatever, a handler is found exactly when one matches, and otherwise the allowed methods are exactly those of the matching routes |
| `Router.MostSpecificRouteWins` | src/http/router.js:25-37 | with ties that carry over, a request reaches the most specific route, the first declared among ties |
| `Router.LaterLiteralIsFirst` | src/http/router.js:25-59 | a literal declared after a parameter is tried before it |
| `Router.AnotherDepthHidesALiteral` | src/http/router.js:25-59 | a table of three routes whose literal route is never reached |
| `Dispatch.OvertakesExactly` | src/http/router.js:80-85 | a more specific route declared later is tried before another exactly when it is more specific than every route tried after that one by then |
| `Dispatch.MostSpecificExactly` | src/http/router.js:25-37 | for any table without wildcards and any order of it: every request reaches a most specific route exactly when all that an inverted pair of routes shares is taken by a route tried before both |
| `Dispatch.TableIsMostSpecificExactly` | src/http/router.js:80-127 | so for the order the table uses |
| `Dispatch.AnOrdinaryTableIsMostSpecific` | src/http/router.js:25-37 | a collection, a literal and a parameter below it: ties do not carry over, yet every request reaches a most specific route |
| `Documents.Library.IngestFile` | src/modules/documents.js:249-324 | a document with version 1 |
| `Documents.Library.Replace` | src/modules/documents.js:479-562 | refused when hidden, deleted or locked, else a new current version that replaces the old |
| `Documents.Library.Decide` | src/modules/verification.js:199-272 | refused when locked or not a legal transition, else the new status, locked on approval if asked |
| `Documents.Library.Lock` | src/modules/documents.js:721-735 | only a verified or approved document is locked |
| `Documents.Library.Archive` | src/modules/documents.js:756-761 | a legal transition archives and locks |
| `Documents.Library.Delete` | src/modules/documents.js:774-789 | a locked document, and a settled or reviewed one without the right to, is not deleted |
| `Documents.ReplacedExactlyWhen` | src/modules/documents.js:479-562 | a file is replaced if and only if the document is seen, not deleted, not locked and the file accepted; it never stays verified or approved, and nothing else of it changes but the version |
| `Documents.DecidedExactlyWhen` | src/modules/verification.js:199-272 | which documents each decision can be made about, where it takes them, and when it locks |
| `Documents.LockedExactlyWhen` | src/modules/documents.js:721-761 | a lock goes only on what is verified or approved and comes off anything; archiving locks, from six statuses only |
| `Documents.DeletedExactlyWhen` | src/modules/documents.js:774-789 | when a deletion goes through; it hides the document and changes nothing else |
| `Documents.DeletedForGood` | src/modules/documents.js:774-789 | whatever happens after, a deleted document is never found again |
| `Documents.ReviewMovesStatus` | src/modules/queries.js:170-315 | opening, raising and answering a query move the status alone; archiving a package, exactly what is in it |
| `Documents.StepKeeps` | src/modules/documents.js:249-789 | every step keeps every document's version chain |
| `Documents.VersionsAreChained` | src/modules/documents.js:249-562 | over every run: numbered 1 to the count, exactly one current, the highest, the one named, each replacing the one before back to the first |
| `Documents.HistoryIsKept` | src/modules/documents.js:530-547 | no run removes a version or changes more of it than whether it is current |
| `Documents.LocksStaySettledUnlessQueried` | src/modules/queries.js:170-174 | a step keeps locked documents verified, approved or archived exactly when it raises no query about a locked one |
| `Documents.RunsKeepLocksSettled` | src/modules/documents.js:721-761 | so does every run that raises none |
| `Documents.AQueryUnsettlesALock` | src/modules/queries.js:170-174 | three steps to a locked document with status query_raised |

## Left out

- ToMysqlParams: the rules that work on the whole text by regular expression, literals included (PRAGMA, INSERT OR IGNORE and REPLACE, ON CONFLICT, `excluded.`, strftime), are not applied in it.
- TextKeepsMeaning: covers statements those rules leave alone, without comments, with every literal closed and nothing double-quoted but plain names.
- TranslationKeepsMeaning: the same.
- RefusedExactly: the same.
- RefusedOnTokens: a statement with a comment, or with something other than a plain name double-quoted, is not covered.
- InsertRefusedExactly: which names and which empty rows are refused is in `Db.Insert`.
- DoublingKeepsMeaning: a comment with a quote in it is excluded; whether the walk is led astray depends on how its quotes pair up with those after it.
- IsLeftExactly: an `IS ?` is the text the rule looks for, with white space on both sides of the word; `IS?`, which SQLite reads too, is not counted.
- mysqlIdent, mysqlType and the strftime table: expressions only.
- SearchFindsContaining: lower-casing is any character map that leaves the wildcards and the backslash alone; case folding that changes a text's length is not modelled.
- BuildQuery: the select list, grouping, ordering and limit, and prototype keys of the operator and field catalogues.
- ClauseMeansItsFilters: a comparison is SQL's three-valued one over any equality and order of values; a column whose name is AND or OR is excluded, and the catalogue has none.
- JoinedSays: conditions other than comparisons with a placeholder, lists, NULL tests and the search form are read as a whole by the database; BETWEEN, whose AND is not a conjunction, appears in no condition given to the builder.
- Insert: of the unique columns of `Tenancy.Db.Insert` only `id` can conflict.
- TenantScope: pagination, raw SQL and batches; rows an order does not tell apart keep the table's order.
- Db: database errors other than a taken id.
- Ledger: the platform's manual payment record, filing periods moved by a paid invoice, reference numbers, and the scheduler's overdue status; invoice dues are changed by nothing else here.
- Invoicing: numbers are exact reals, so the binary floating point of a rate is not modelled.
- AddOns: provisioning of providers, configuration and the invoice's other fields; the catalogue is what each request read.
- Unauthenticated or unentitled callers of the handlers: permission, feature and validation checks are inputs or done before the step.
- Interleavings inside one handler: the source reads and then writes without a transaction, and each handler is one atomic step here.
- MigrationPlan: parsing of SQL text (tables, indexes and pending changes are given as statements), dry runs, and the wording of summaries; the baseline is tables first and then indexes, as the generated file is.
- FinishedRunIsComplete: asks that no incremental file is on record before the baseline; an index that goes with the last of its columns is not modelled.
- ImportMakesWhatIsParsed: the statements a file is parsed into are given, not its text.
- Decode and RoundTrip: upper-casing is that of ASCII letters.
- VerifyTotp: times are exact integers; HMAC-SHA-1 is any function to twenty bytes; the constant-time comparison is equality.
- Backup codes, secret generation and password hashing: cryptographic strength and easy members.
- NextRunAt: `Date.UTC` reads the years 0 to 99 as 1900 to 1999, and dates have an outer limit; neither is modelled.
- Sessions: the token's own signature is part of whether a token hash is given; device, address and company fields; a request that fails later in authentication writes no heartbeat, and the heartbeat bound takes it as written before the next request.
- GenerateTemporaryPassword: an endless stream of rejected words is a finite one that runs out.
- CheckPasswordPolicy: lower-casing is that of ASCII letters.
- OrderedRoutes: the sort is a stable insertion; where ties do not carry over another stable sort may leave another order, and `MostSpecificExactly` holds for any.
- MostSpecificExactly: wildcards, of which the source declares none.
- TableIsMostSpecificExactly: the same.
- MostSpecificRouteWins: asks that ties carry over in the table; `MostSpecificExactly` says what any table does.
- Router: compiling a pattern to a regular expression (a parameter in the middle of a segment, a `*` that is not last), decoding of parameters, middleware.
- Documents: files, storage, scanning, checklists and notifications; opening, bulk decisions, report archiving and queries are steps without a method of their own.
- Vendor integrations, webhooks, storage, PDF and HTTP plumbing, the MySQL pool, static catalogues, dashboards and listing queries: I/O, or members without a hard property.
- Call status tracking in `src/modules/calls.js`: provider updates can move a call out of any status, so nothing strong holds over its runs.
