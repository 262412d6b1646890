# Tabesh print-shop core, modelled in Dafny

Tabesh is a WordPress plugin that runs a book-printing shop. Customers order printed books.
Staff follow each order through the print workflow. Administrators enter orders for customers,
export and import the shop's data, and check that every book size has a price.

This project models the plugin's decision and bookkeeping logic and proves what that logic
promises:

- **Print workflow.** The substeps checklist is built from an order's fields. Substeps are
  toggled, and progress is computed from them. The printing sub-status record has four fixed
  flags and a list of extra services. An order moves to "ready" once printing is complete.
- **Admin order wizard.** A five-step form with per-step validation, the new-customer checks,
  navigation, reset, and price formatting.
- **Export and import.** The section whitelist, the import-file validator, and the merge and
  replace importers. An import is designed as all or nothing: the first failing section rolls it back.
- **Behaviour tracker.** The batched event queue, the scroll threshold, the once-per-session
  scroll milestones, the idle tick, and the "three of the last five clicks" confusion detector.
- **Staff desk.** Ranked order search with one-extra-row paging, and status updates with their
  log rows.
- **Dashboard REST API.** Parameter clamping, the filter clauses, pagination and order formatting.
- **Customer dashboard.** The user state, the default tab and the order summary.
- **Admin-form access control.**
- **Order-form tab.** Settings coercion and extras cleaning.
- **Guided tours.** Tour lookup with custom overrides.
- **Pricing-matrix keys.** The base64 key encoding of section 4 of RFC 4648 and its test suite.
- **Pricing diagnostic.** How the diagnostic page classifies matrix keys and aligns sizes.

The database tables are values: a sequence of rows, or a map from id to row. Host facts are
parameters. These are the current user, the time, whether a write succeeds, and the firewall's
verdict. Objects whose state the source updates in place are classes with `modifies` clauses:
the wizard, the tracker, the substeps table, the sub-status store, the staff desk, the
export/import store and the custom-tours option.

Shared modules:

- `PhpValues`: PHP's `empty()` on strings, `trim`, `sanitize_key`, `intval`, `strval`, and the
  integer-key rule for array offsets.
- `Wrappers`: `Option` and `Result`.
- `Orders`: the order row.
- `JsValues`: JavaScript's `String.prototype.trim`, shared by the wizard and the tracker.

## Model

| member | source | states |
|---|---|---|
| PhpValues.Trim | templates/dashboard/partials/tab-order-form.php:44-47 | the input with its leading and trailing runs of PHP's default trim characters removed: an infix that neither starts nor ends with one, with only trim characters before and after it |
| PhpValues.TrimWith | templates/dashboard/partials/tab-order-form.php:44-47 | trimming by any character class gives exactly that infix of the input |
| PhpValues.TrimmedByUnique | templates/dashboard/partials/tab-order-form.php:44-47 | those facts determine the trimmed string: two results that both meet them are equal |
| PhpValues.TrimIdempotent | templates/dashboard/partials/tab-order-form.php:44-47 | trimming an already trimmed string changes nothing |
| PhpValues.EmptyStringCases | templates/dashboard/partials/tab-order-form.php:46 | empty() holds for "" and "0" and fails for " ", "00", "0.0" and "false" |
| PhpValues.SanitizeKey | test-encoding-fix.php:106-111 | never longer than the input; holds only a-z, 0-9, '_' and '-'; every byte that lower-cases to one of them appears in it; empty exactly when no byte does |
| PhpValues.SanitizeKeyAppend | test-encoding-fix.php:106-111 | sanitize_key works byte by byte: the key of two strings joined is their two keys joined |
| PhpValues.SanitizeKeyOfByte | test-encoding-fix.php:106-111 | a single byte is kept, lower-cased, exactly when its lower-case form is a key character |
| PhpValues.SanitizeKeyKeeps | test-encoding-fix.php:106-111 | a string made only of key characters is its own key |
| PhpValues.SanitizeKeyIdempotent | test-encoding-fix.php:106-111 | sanitizing a sanitized key changes nothing |
| PhpValues.SanitizeKeyErasesHighBytes | test-encoding-fix.php:106-111 | a string made only of non-ASCII UTF-8 bytes (a Persian size name) sanitizes to "" |
| PhpValues.Saturate | includes/handlers/class-tabesh-react-dashboard-api.php:152-153 | an integer inside PHP's 64-bit range is kept; beyond it the value sticks at the nearer bound |
| PhpValues.IntVal | includes/handlers/class-tabesh-react-dashboard-api.php:152-153 | the result always lies in PHP's integer range, and a string with no numeric prefix gives 0 |
| PhpValues.IntValOfExponentExample | includes/handlers/class-tabesh-react-dashboard-api.php:152-153 | intval("5e1") is 50: the exponent form is read |
| PhpValues.IntValOfDecimalExample | includes/handlers/class-tabesh-react-dashboard-api.php:152-153 | intval("1.5e3") is 1500: the decimal point and the exponent are read together |
| PhpValues.IntValOfPrefixExample | includes/handlers/class-tabesh-react-dashboard-api.php:152-153 | intval(" 12abc") is 12: leading blanks are skipped and trailing text is ignored |
| PhpValues.IntValOfIntToString | includes/handlers/class-tabesh-react-dashboard-api.php:233 | intval of the decimal form of any integer gives back that integer |
| PhpValues.IntValOfNegative | includes/handlers/class-tabesh-react-dashboard-api.php:233 | the decimal form of a negative integer reads back as that integer, brought into range |
| PhpValues.IntValOfNonNegative | includes/handlers/class-tabesh-react-dashboard-api.php:233 | the decimal form of a non-negative integer reads back as that integer, brought into range |
| PhpValues.IntToStringInjective | includes/ai/class-tabesh-ai-tour-guide.php:105 | different integers print differently |
| PhpValues.IntToStringIsIntegerKey | includes/ai/class-tabesh-ai-tour-guide.php:105 | the decimal form of an integer is an integer array key exactly when the integer lies in the 64-bit range |
| PhpValues.Percent | includes/handlers/class-tabesh-print-substeps.php:313-323 | the truncated percentage is at most 100; it is 100 exactly when the total is positive and everything is done; it is 0 for a zero total |
| PhpValues.PercentMonotone | includes/handlers/class-tabesh-print-substeps.php:313-323 | with the same total, more done items never give a lower percentage |
| PrintSubsteps.PlanSubsteps | includes/handlers/class-tabesh-print-substeps.php:88-167 | 1 to 6 stages in the generator's fixed order, packaging always last; each optional stage is present exactly when its order fields are set (lamination not for "no lamination", content only with both paper type and weight, extras only for a non-empty list) |
| PrintSubsteps.PlanNeverEmpty | includes/handlers/class-tabesh-print-substeps.php:159-167 | every order's checklist contains the packaging stage |
| PrintSubsteps.CoverStage | includes/handlers/class-tabesh-print-substeps.php:91-101 | a cover-printing stage from this order exactly when a cover paper weight is set |
| PrintSubsteps.LaminationStage | includes/handlers/class-tabesh-print-substeps.php:103-113 | a lamination stage from this order exactly when a lamination type is set and is not "no lamination" |
| PrintSubsteps.ContentStage | includes/handlers/class-tabesh-print-substeps.php:115-131 | a content-printing stage from this order exactly when both paper type and paper weight are set |
| PrintSubsteps.BindingStage | includes/handlers/class-tabesh-print-substeps.php:133-143 | a binding stage from this order exactly when a binding type is set |
| PrintSubsteps.ExtrasStage | includes/handlers/class-tabesh-print-substeps.php:145-156 | an extras stage from this order exactly when the stored extras are a non-empty list |
| PrintSubsteps.Materialize | includes/handlers/class-tabesh-print-substeps.php:169-171 | one new row per planned stage, with consecutive fresh ids, not completed, and display order equal to its position 0, 1, ..., n-1 |
| PrintSubsteps.RowsOf | includes/handlers/class-tabesh-print-substeps.php:25-49 | exactly the order's rows, all of them; their order is stated by RowsOfAppend |
| PrintSubsteps.RowsOfAppend | includes/handlers/class-tabesh-print-substeps.php:25-49 | the order's rows of a joined table are those of the first part followed by those of the second, so table order is kept |
| PrintSubsteps.FindRow | includes/handlers/class-tabesh-print-substeps.php:186-197 | the row found has the requested id; None means no row has it |
| PrintSubsteps.Mark | includes/handlers/class-tabesh-print-substeps.php:205-219 | only the completion fields change; completing stamps time and staff member, un-completing clears both |
| PrintSubsteps.ChangeLog | includes/handlers/class-tabesh-print-substeps.php:239-293 | one history entry, written exactly when the order has a customer (a non-zero user id) |
| PrintSubsteps.CountCompleted | includes/handlers/class-tabesh-print-substeps.php:305-322 | at most the number of rows, and equal to it exactly when every row is completed |
| PrintSubsteps.Progress | includes/handlers/class-tabesh-print-substeps.php:301-324 | 0 without substeps, never above 100, and 100 exactly when there are substeps and all of them are completed |
| PrintSubsteps.AllSubstepsCompleted | includes/handlers/class-tabesh-print-substeps.php:332-334 | true exactly when the order has substeps and every one is completed |
| PrintSubsteps.ProgressMonotone | includes/handlers/class-tabesh-print-substeps.php:301-324 | completing more substeps never lowers the progress |
| PrintSubsteps.AppendPlanWellFormed | includes/handlers/class-tabesh-print-substeps.php:88-171 | appending a generated checklist for an order with no rows keeps ids increasing and each order's display orders consecutive from 0 |
| PrintSubsteps.UpdateWellFormed | includes/handlers/class-tabesh-print-substeps.php:205-219 | changing only the completion fields of one row keeps the table well formed |
| PrintSubsteps.DeleteWellFormed | includes/handlers/class-tabesh-print-substeps.php:456-467 | deleting an order's rows keeps the table well formed |
| PrintSubsteps.WithoutOrder | includes/handlers/class-tabesh-print-substeps.php:456-467 | no row of the deleted order remains, and every remaining row was in the table |
| PrintSubsteps.SubstepTable.GenerateSubstepsForOrder | includes/handlers/class-tabesh-print-substeps.php:57-174 | false with no insert for an unknown order; true with no insert when the order already has rows; otherwise the planned rows appended with fresh ids |
| PrintSubsteps.SubstepTable.InsertPlanned | includes/handlers/class-tabesh-print-substeps.php:169-171 | the loop appends exactly the materialized plan and advances the id counter by its length |
| PrintSubsteps.SubstepTable.GetOrderSubsteps | includes/handlers/class-tabesh-print-substeps.php:25-49 | the order's rows in display order, generated first when there are none; an existing order always gets at least its packaging row; the table grows by exactly the generated rows and the id counter by their number, and is otherwise unchanged, so other orders' rows are untouched |
| PrintSubsteps.SubstepTable.UpdateSubstepStatus | includes/handlers/class-tabesh-print-substeps.php:183-227 | false and no change for an unknown id; otherwise that one row is marked and the change is logged |
| PrintSubsteps.SubstepTable.UpdateSubstepRest | includes/handlers/class-tabesh-print-substeps.php:342-446 | 400 for a non-positive id, 404 for an unknown one; otherwise the row is marked and the order's progress reported; the "substeps completed" log is written at most once per order |
| PrintSubsteps.SubstepTable.DeleteOrderSubsteps | includes/handlers/class-tabesh-print-substeps.php:456-467 | the order's rows are gone and every other order's rows are as they were |
| PrintingSubstatus.ParseFlag | includes/handlers/class-tabesh-printing-substatus.php:200-203 | a key is accepted exactly when it is the column name of one of the four flags |
| PrintingSubstatus.ParseFlagName | includes/handlers/class-tabesh-printing-substatus.php:200-203 | every flag's column name is accepted as that flag |
| PrintingSubstatus.ExtractPrintingDetails | includes/handlers/class-tabesh-printing-substatus.php:117-162 | each detail is filled exactly when the order specifies that stage; lamination stays empty for "no lamination"; text details need both paper type and weight |
| PrintingSubstatus.DetailsAgreeWithSubsteps | includes/handlers/class-tabesh-printing-substatus.php:117-162 | the sub-status details and the substeps checklist agree on which printing stages an order has |
| PrintingSubstatus.InitialServices | includes/handlers/class-tabesh-printing-substatus.php:70-76 | one pending entry per extra of a list-valued extras field, in extras order; none otherwise |
| PrintingSubstatus.WithFlag | includes/handlers/class-tabesh-printing-substatus.php:206-240 | the chosen flag takes the value and nothing else in the record changes |
| PrintingSubstatus.CountServicesDone | includes/handlers/class-tabesh-printing-substatus.php:355-361 | equals the number of services exactly when every service is done |
| PrintingSubstatus.CompletionPercent | includes/handlers/class-tabesh-printing-substatus.php:429-477 | the share of done stages, counting lamination only when it applies; never above 100 |
| PrintingSubstatus.PercentHundredIffComplete | includes/handlers/class-tabesh-printing-substatus.php:429-477 | the percentage is 100 exactly when the completion check passes |
| PrintingSubstatus.CompleteIffAllStagesDone | includes/handlers/class-tabesh-printing-substatus.php:336-366 | the completion check passes exactly when every counted stage is done |
| PrintingSubstatus.FindService | includes/handlers/class-tabesh-printing-substatus.php:284-288 | the first entry with exactly this name, or None when there is none |
| PrintingSubstatus.SetService | includes/handlers/class-tabesh-printing-substatus.php:272-298 | the first entry with the name gets the new value and no other entry changes; an unknown name is appended |
| PrintingSubstatus.SetServiceIdempotent | includes/handlers/class-tabesh-printing-substatus.php:272-298 | setting a service twice to the same value equals setting it once |
| PrintingSubstatus.SetServiceFinds | includes/handlers/class-tabesh-printing-substatus.php:272-298 | after the update the service is found with the new value |
| PrintingSubstatus.OnlyOneCompletesFlag | includes/handlers/class-tabesh-printing-substatus.php:242-245 | only setting a flag to 1 can complete a record that was not complete, so running the auto-completion for the value 1 alone misses nothing |
| PrintingSubstatus.ServiceUpdateCompletesOnlyWhenDone | includes/handlers/class-tabesh-printing-substatus.php:319-322 | a service update that leaves the record complete set a non-zero value |
| PrintingSubstatus.UpdateServiceEntry | includes/handlers/class-tabesh-printing-substatus.php:284-288 | the search loop that stops at the first match computes exactly SetService |
| PrintingSubstatus.StatusAfterAutoComplete | includes/handlers/class-tabesh-printing-substatus.php:398-402 | as written, the auto-completion sets "ready" whatever the current status |
| PrintingSubstatus.IntendedStatusAfterAutoComplete | includes/handlers/class-tabesh-printing-substatus.php:375-406 | only a "processing" order moves to "ready"; any other status is kept |
| PrintingSubstatus.CompletedOrderRegresses | includes/handlers/class-tabesh-printing-substatus.php:398-402 | as written, a delivered ("completed") order goes back to "ready"; the intended rule keeps it |
| PrintingSubstatus.IntendedAgreesOnProcessing | includes/handlers/class-tabesh-printing-substatus.php:398-402 | the intended rule and the code agree on a "processing" order and differ only by leaving other orders alone |
| PrintingSubstatus.SubstatusStore.InitializePrintingSubstatus | includes/handlers/class-tabesh-printing-substatus.php:40-110 | None for order id 0 or an unknown order; the existing record's id when there is one; otherwise a new record with all flags 0, the extracted details and one pending service per extra, plus a log entry |
| PrintingSubstatus.SubstatusStore.CheckPrintingCompletion | includes/handlers/class-tabesh-printing-substatus.php:336-373 | true exactly when a record exists and passes the completion check |
| PrintingSubstatus.SubstatusStore.GetCompletionPercentage | includes/handlers/class-tabesh-printing-substatus.php:429-477 | 0 without a record, otherwise the record's completion percentage |
| PrintingSubstatus.SubstatusStore.CountDoneServices | includes/handlers/class-tabesh-printing-substatus.php:456-465 | the loop counts exactly the services marked completed |
| PrintingSubstatus.SubstatusStore.CheckAndAutoComplete | includes/handlers/class-tabesh-printing-substatus.php:375-427 | nothing changes unless the record is complete; then completion is stamped, the order's status follows the intended rule, and a log entry and a notification are recorded |
| PrintingSubstatus.SubstatusStore.SetFlag | includes/handlers/class-tabesh-printing-substatus.php:205-240 | the record is created when there is none, with an "initialized" log; then the one flag is set and the change logged; orders untouched |
| PrintingSubstatus.SubstatusStore.UpdatePrintingSubstatus | includes/handlers/class-tabesh-printing-substatus.php:188-259 | false with no write for id 0, an empty key or an unknown key; otherwise the record (created if missing) has the one flag set and the others kept, the creation and the change are logged, and a value of 1 that completes the record stamps it, moves a processing order to "ready" and notifies the customer; with no order and no record only the change is logged |
| PrintingSubstatus.SubstatusStore.UpdateAdditionalService | includes/handlers/class-tabesh-printing-substatus.php:261-334 | false with no write for id 0, an empty name or a missing record; otherwise the service list is SetService of the old one with the flags untouched, the change is logged, and a value of 1 that completes the record stamps it and moves a processing order to "ready" |
| AdminWizard.InitialState | assets/js/admin-order-form.js:18-35 | the defaults: no customer, type "existing", 100 pages, quantity 10, empty fields and extras, no SMS, no price |
| AdminWizard.RequiredFields | assets/js/admin-order-form.js:436-509 | each of the five steps checks at least one field; other steps check none |
| AdminWizard.FirstMissing | assets/js/admin-order-form.js:436-509 | the position of the first missing field, with every earlier field present; None exactly when no field is missing |
| AdminWizard.ReportedCons | assets/js/admin-order-form.js:436-509 | the first field of a list is checked first; only when it is filled in does the rest of the list decide |
| AdminWizard.ValidateStep | assets/js/admin-order-form.js:436-509 | steps outside 1..5 always pass |
| AdminWizard.ValidateStepReportsFirstMissing | assets/js/admin-order-form.js:436-509 | validation reports the first missing field of the step's fixed list, and passes exactly when no field is missing |
| AdminWizard.StepThreeRejectsNonPositiveCounts | assets/js/admin-order-form.js:466-483 | with paper and print type chosen, a missing, zero or negative page count is refused |
| AdminWizard.StepThreeReportsFirstMissing | assets/js/admin-order-form.js:466-483 | step 3 reports the first of paper type, paper weight, print type, page count and quantity that is missing, and passes when none is |
| AdminWizard.InitialStateBlocked | assets/js/admin-order-form.js:18-35 | a reset form can neither leave step 1 nor be submitted |
| AdminWizard.ViewOf | assets/js/admin-order-form.js:373-410 | the progress bar shows step/5 as a percentage; "previous" is hidden only on step 1; exactly one of "next" and "submit" is shown, "submit" only on step 5 |
| AdminWizard.IndicatorOf | assets/js/admin-order-form.js:378-388 | a step indicator is "completed" exactly for earlier steps and "active" exactly for the current one |
| AdminWizard.OneActiveIndicator | assets/js/admin-order-form.js:378-388 | only one indicator is active, and every one before it is completed |
| AdminWizard.CheckNewCustomer | assets/js/admin-order-form.js:267-282 | accepted exactly when the JavaScript-trimmed name is non-empty and the JavaScript-trimmed mobile is "09" and nine digits; a blank name or mobile gives the "name and mobile" error |
| AdminWizard.IsMobileShape | assets/js/admin-order-form.js:279 | a mobile number passes exactly when it has eleven characters: "09" followed by nine digits |
| JsValues.JsTrim | assets/js/admin-order-form.js:268-270 | the input with its leading and trailing runs of ECMAScript white space and line terminators removed: an infix that neither starts nor ends with one, with only such characters before and after it |
| JsValues.JsTrimIdempotent | assets/js/admin-order-form.js:268-270 | trimming twice is trimming once |
| JsValues.NoBreakSpaceIsBlank | assets/js/admin-order-form.js:268-270 | a text made only of a no-break space is blank to String.prototype.trim (so to the wizard), though PHP's trim() keeps it |
| AdminWizard.ToggleCustomerType | assets/js/admin-order-form.js:74-90 | the type is recorded and the selected customer always cleared; "existing" also clears the new customer's data; nothing else changes |
| AdminWizard.CustomerCreatedAsWritten | assets/js/admin-order-form.js:299-322 | as written, a created customer ends with no selected customer and no data, because the re-triggered toggle clears them |
| AdminWizard.CustomerCreated | assets/js/admin-order-form.js:299-322 | the created customer stays selected under type "existing" with its data |
| AdminWizard.CreatedCustomerLost | assets/js/admin-order-form.js:299-322 | as written, step 1 refuses to move on after a customer is created; with the corrected callback it passes |
| AdminWizard.GroupDigits | assets/js/admin-order-form.js:1007-1009 | runs of up to three digits are unchanged; a longer run ends in a comma and its last three digits |
| AdminWizard.GroupDigitsShape | assets/js/admin-order-form.js:1007-1009 | the grouped form is a first group of one to three digits, then groups of exactly three digits, each behind a comma |
| AdminWizard.GroupedAppend | assets/js/admin-order-form.js:1007-1009 | a grouped number followed by a comma and three digits is grouped |
| AdminWizard.FormatPrice | assets/js/admin-order-form.js:1007-1009 | the formatted amount is never empty |
| AdminWizard.FormatPriceShape | assets/js/admin-order-form.js:1007-1009 | a formatted amount is a grouped number, behind a minus sign exactly when it is negative |
| AdminWizard.RemoveCommas | assets/js/admin-order-form.js:1007-1009 | deleting the commas never lengthens a text and leaves no comma |
| AdminWizard.UngroupDigits | assets/js/admin-order-form.js:1007-1009 | deleting the separators gives back the digits |
| AdminWizard.FormatPriceRoundTrip | assets/js/admin-order-form.js:1007-1009 | a formatted price read back without its commas is the amount it shows |
| AdminWizard.Wizard.constructor | assets/js/admin-order-form.js:14-35 | the wizard opens on step 1 with the default state |
| AdminWizard.Wizard.ShowStep | assets/js/admin-order-form.js:348-367 | the step becomes current, its view is shown, and the form state is untouched |
| AdminWizard.Wizard.HandleNext | assets/js/admin-order-form.js:414-422 | advances by exactly one only when the current step validates and is below 5; the step stays in 1..5 |
| AdminWizard.Wizard.HandlePrevious | assets/js/admin-order-form.js:427-431 | goes back by exactly one only from a step above 1 |
| AdminWizard.Wizard.SetCustomerType | assets/js/admin-order-form.js:74-90 | the state becomes the toggled state; the step is unchanged |
| AdminWizard.Wizard.SelectCustomer | assets/js/admin-order-form.js:231-262 | only the selected customer changes |
| AdminWizard.Wizard.OnCustomerCreated | assets/js/admin-order-form.js:299-322 | with the corrected callback, a created customer lets step 1 pass |
| AdminWizard.Wizard.SetCounts | assets/js/admin-order-form.js:144-150 | only the page count and quantity change |
| AdminWizard.Wizard.UpdateExtrasState | assets/js/admin-order-form.js:746-751 | the extras become exactly the checked boxes, in page order |
| AdminWizard.Wizard.OnPriceCalculated | assets/js/admin-order-form.js:849-851 | a successful reply stores the price; anything else leaves the state as it was |
| AdminWizard.Wizard.HandleSubmit | assets/js/admin-order-form.js:885-888 | the order is sent exactly when a price has been calculated, which is exactly when step 5 validates |
| AdminWizard.Wizard.ResetForm | assets/js/admin-order-form.js:949-979 | every field back to its default and the wizard back on step 1 |
| ExportImport.TableName | includes/handlers/class-tabesh-export-import.php:76-90 | None exactly for a section off the whitelist; the users table for "customers"; prefix + "tabesh_" + section for the others |
| ExportImport.TableNamesDistinct | includes/handlers/class-tabesh-export-import.php:76-90 | different table sections never share a table |
| ExportImport.ModeOf | includes/handlers/class-tabesh-export-import.php:490 | the mode string "merge" selects merge mode and "replace" replace mode, and nothing else selects either |
| ExportImport.Truncate | includes/handlers/class-tabesh-export-import.php:490-493 | no rows remain and ids start again at 1 |
| ExportImport.Insert | includes/handlers/class-tabesh-export-import.php:521-524 | the row is appended, under its own id or the next one, and earlier rows are kept |
| ExportImport.UpdateById | includes/handlers/class-tabesh-export-import.php:517-519 | exactly the rows with that id take the new values; ids and row count are unchanged |
| ExportImport.UpdateBySetting | includes/handlers/class-tabesh-export-import.php:577-583 | exactly the rows with that setting key take the new values |
| ExportImport.StripId | includes/handlers/class-tabesh-export-import.php:771-772 | the row minus its "id" column and nothing else |
| ExportImport.BaseTable | includes/handlers/class-tabesh-export-import.php:490-492 | replace mode starts from an emptied table; any other mode from the table as it is |
| ExportImport.ImportOrders | includes/handlers/class-tabesh-export-import.php:485-535 | every input row is counted; the table is the order-import fold over the rows, from a table emptied first in replace mode; outside merge mode the rows are appended after the kept rows; in merge mode every non-zero id of the file names an order afterwards and an order the file never names is unchanged |
| ExportImport.OrderStep | includes/handlers/class-tabesh-export-import.php:496-528 | one pass of the loop never removes a row |
| ExportImport.OrdersImported | includes/handlers/class-tabesh-export-import.php:496-528 | the fold of that pass over the file never removes a row |
| ExportImport.OrdersAppendedAsSimple | includes/handlers/class-tabesh-export-import.php:523-525 | outside merge mode the order importer appends every row under a fresh id, exactly as the simple importer does |
| ExportImport.MergedOrdersHaveIds | includes/handlers/class-tabesh-export-import.php:507-522 | in merge mode every non-zero id of the file names an order afterwards |
| ExportImport.MergedOrdersFrame | includes/handlers/class-tabesh-export-import.php:507-522 | in merge mode an order whose id no row of the file names is left as it was |
| ExportImport.MergedOrderHoldsLastRow | includes/handlers/class-tabesh-export-import.php:507-522 | in merge mode the order named by a non-zero id holds the columns of the last row of the file with that id, whether it was updated or inserted |
| ExportImport.ImportSettings | includes/handlers/class-tabesh-export-import.php:544-596 | every input row is counted; the table is the settings-import fold over the rows, from a table emptied first in replace mode; outside merge mode the rows are appended after the kept rows; in merge mode, with text keys, every setting key of the file is stored afterwards |
| ExportImport.SettingStep | includes/handlers/class-tabesh-export-import.php:555-589 | one pass of the loop never removes a row |
| ExportImport.SettingsImported | includes/handlers/class-tabesh-export-import.php:555-589 | the fold of that pass over the file never removes a row |
| ExportImport.SettingsAppendedAsSimple | includes/handlers/class-tabesh-export-import.php:584-586 | outside merge mode the settings importer appends every row under a fresh id, exactly as the simple importer does |
| ExportImport.MergedSettingsHaveKeys | includes/handlers/class-tabesh-export-import.php:565-583 | in merge mode, with text keys, every setting key of the file is stored afterwards |
| ExportImport.MergedSettingsFrame | includes/handlers/class-tabesh-export-import.php:565-583 | in merge mode a stored row that no key of the file matches is left as it was |
| ExportImport.MergedSettingHoldsLastRow | includes/handlers/class-tabesh-export-import.php:565-583 | in merge mode a setting holds the columns of the last row of the file with its key, whether it was updated or appended |
| ExportImport.SettingKept | includes/handlers/class-tabesh-export-import.php:565-591 | one merge step keeps every stored key and stores the merged one |
| ExportImport.ImportSimpleTable | includes/handlers/class-tabesh-export-import.php:757-788 | every row is appended without its id, under fresh consecutive ids, after the (truncated for replace) table |
| ExportImport.SimpleImportedRows | includes/handlers/class-tabesh-export-import.php:757-788 | the kept rows stay in front, and the i-th row of the file follows them without its id, under the i-th id the counter hands out |
| ExportImport.SimpleReimportRestores | includes/handlers/class-tabesh-export-import.php:757-788 | replacing a table numbered 1, 2, ... with its own rows gives back the same table |
| ExportImport.MetaUpdates | includes/handlers/class-tabesh-export-import.php:630-634 | only meta keys holding exactly one value are set, to that value |
| ExportImport.UpdatedUser | includes/handlers/class-tabesh-export-import.php:617-634 | e-mail and display name come from the row; the meta keys grow by the single-valued ones |
| ExportImport.ImportCustomers | includes/handlers/class-tabesh-export-import.php:605-645 | the users are the customer-import fold over the rows; never creates or removes a user; outside merge mode changes and counts nothing; in merge mode counts the rows naming an existing user and leaves every user the file does not name alone |
| ExportImport.CustomerStep | includes/handlers/class-tabesh-export-import.php:608-639 | one pass of the loop keeps the set of users |
| ExportImport.CustomersImported | includes/handlers/class-tabesh-export-import.php:608-639 | the fold of that pass over the file keeps the set of users |
| ExportImport.MergedCustomerHoldsLastRow | includes/handlers/class-tabesh-export-import.php:616-633 | in merge mode a user named by a row ends with that row's e-mail, display name and single-valued meta when no later row names the same user |
| ExportImport.CountExisting | includes/handlers/class-tabesh-export-import.php:612-640 | the number of rows naming an existing user, never more than the rows |
| ExportImport.CustomerRow | includes/handlers/class-tabesh-export-import.php:380-395 | the exported row names the user it was made from |
| ExportImport.CustomerRoundTrip | includes/handlers/class-tabesh-export-import.php:361-398 | importing an exported customer back onto the same user changes nothing |
| ExportImport.VersionGreaterIrreflexive | includes/handlers/class-tabesh-export-import.php:236 | no version is newer than itself |
| ExportImport.VersionGreaterAsymmetric | includes/handlers/class-tabesh-export-import.php:236 | two versions are never each newer than the other |
| ExportImport.VersionGreaterTotal | includes/handlers/class-tabesh-export-import.php:236 | of two different versions one is newer |
| ExportImport.VersionGreaterTransitive | includes/handlers/class-tabesh-export-import.php:236 | a version newer than a second one, itself newer than a third, is newer than the third |
| ExportImport.ValidateImportData | includes/handlers/class-tabesh-export-import.php:218-252 | valid exactly for an array with version, export date and sections whose version is not newer than the plugin's; "invalid format" exactly for a non-array |
| ExportImport.OwnExportsValidate | includes/handlers/class-tabesh-export-import.php:218-252 | a file from this or an older plugin version passes validation |
| ExportImport.Selected | includes/handlers/class-tabesh-export-import.php:176-179 | only listed sections that the file holds and the whitelist allows are imported |
| ExportImport.SelectedContains | includes/handlers/class-tabesh-export-import.php:176-179 | every listed section that the file holds and the whitelist allows is imported |
| ExportImport.PreviewSections | includes/handlers/class-tabesh-export-import.php:323-332 | only whitelisted sections appear, each with its row count |
| ExportImport.PreviewSectionsAppend | includes/handlers/class-tabesh-export-import.php:323-332 | the preview of two key lists joined is their two previews joined, so file order is kept |
| ExportImport.PreviewOfOneKey | includes/handlers/class-tabesh-export-import.php:323-332 | a single key gives one line with its row count when it is whitelisted, and none otherwise |
| ExportImport.PreviewListsEveryValidKey | includes/handlers/class-tabesh-export-import.php:323-332 | every whitelisted key of the file is listed with its row count |
| ExportImport.GetImportPreview | includes/handlers/class-tabesh-export-import.php:305-335 | invalid exactly when validation fails; otherwise the file's version and date, its site URL or "", and exactly the preview lines of the file's keys |
| ExportImport.DistinctUserIds | includes/handlers/class-tabesh-export-import.php:365-370 | every user id of the orders, each once |
| ExportImport.CustomerRows | includes/handlers/class-tabesh-export-import.php:361-398 | exactly the existing users among the ids: each of them is exported, as its customer row, and no one else is |
| ExportImport.SectionImported | includes/handlers/class-tabesh-export-import.php:182-186 | importing one section keeps every table and every user: the section's importer runs on its own table, emptied first in replace mode, or on the users for "customers" |
| ExportImport.SectionImportedFrame | includes/handlers/class-tabesh-export-import.php:182-186 | importing one section changes only its own table, or only the users for "customers" |
| ExportImport.ReplaceImportRestores | includes/handlers/class-tabesh-export-import.php:182-186 | replacing a table section numbered 1, 2, ... with its own rows leaves the whole contents as they were |
| ExportImport.SectionCount | includes/handlers/class-tabesh-export-import.php:182-186 | the count an importer reports: every row of a table section; for customers at most the rows, and none outside merge mode |
| ExportImport.CountExistingByKeys | includes/handlers/class-tabesh-export-import.php:613-634 | the count of rows naming an existing user depends only on which users exist |
| ExportImport.SectionsApplied | includes/handlers/class-tabesh-export-import.php:175-190 | importing the first n selected sections in turn keeps every table and every user |
| ExportImport.SectionsAppliedFrame | includes/handlers/class-tabesh-export-import.php:175-190 | a table no selected section names is unchanged, and the users are unchanged unless "customers" is selected |
| ExportImport.ImportSection | includes/handlers/class-tabesh-export-import.php:182-186 | the contents afterwards are exactly SectionImported and the count is exactly SectionCount; every other table is unchanged, and the users change only for "customers" |
| ExportImport.RunSections | includes/handlers/class-tabesh-export-import.php:175-190 | the selected sections run in list order; each outcome before a failure is that section with its importer count, and the contents are the importers applied in turn to the sections run so far; success exactly when no selected section fails; a failure ends the run at that section with count 0; tables of unselected sections are unchanged |
| ExportImport.RunList | includes/handlers/class-tabesh-export-import.php:175-190 | the loop stops at the first failing section and otherwise imports every section, with the outcomes and contents described above |
| ExportImport.RunSucceedsStep | includes/handlers/class-tabesh-export-import.php:182-186 | a successful section extends a run that has not failed by its outcome and its import |
| ExportImport.RunOutcomes | includes/handlers/class-tabesh-export-import.php:175-190 | a run succeeds exactly when no selected section fails; then it lists every selected section in order as a success; otherwise it ends with the failing one |
| ExportImport.SectionsOf | includes/handlers/class-tabesh-export-import.php:175-190 | the sections named by the outcomes, one per outcome and in order |
| ExportImport.Store.Export | includes/handlers/class-tabesh-export-import.php:120-144 | version, date and site as given; each whitelisted requested section (all twelve when none are requested) exactly once, with that section's content |
| ExportImport.Store.SectionContent | includes/handlers/class-tabesh-export-import.php:133-141 | a table section exports that table's rows; the customers section holds exactly the existing users who placed an order, each as the row made from that user |
| ExportImport.Store.Import | includes/handlers/class-tabesh-export-import.php:155-210 | an invalid file is refused before any write; otherwise all or nothing: success exactly when no selected section fails, and on failure every table and user as before |
| ExportImport.Store.ImportSections | includes/handlers/class-tabesh-export-import.php:173-209 | the transaction: success exactly when no selected section fails; on success the tables and users are the importers applied in turn to the selected sections, and each outcome is that section with its importer count; on failure the snapshot is restored and the last outcome is the failing section with count 0 |
| AiTracker.BatchOf | assets/js/ai-tracker.js:221-226 | a flush takes min(length, 10) events |
| AiTracker.ReportedValue | assets/js/ai-tracker.js:168-179 | password, e-mail and "credit" fields are redacted; other values over 100 characters are cut to 100 plus "..."; shorter ones pass as they are |
| AiTracker.Prefix | assets/js/ai-tracker.js:133 | at most n characters, a prefix of the text, the whole text when it is short enough |
| AiTracker.ClickText | assets/js/ai-tracker.js:133 | the JS-trimmed text cut to 50 characters: a prefix of the trimmed text that does not start with a blank, the whole trimmed text when short enough, empty exactly when the text is blank |
| AiTracker.ClickTextOfIndentedButton | assets/js/ai-tracker.js:133 | a button whose text is "\n    Add to cart\n  " reports "Add to cart" |
| AiTracker.Window | assets/js/ai-tracker.js:336-341 | the history keeps its newest entries, never more than ten after one push |
| AiTracker.Last | assets/js/ai-tracker.js:344 | the last n clicks, or all of them |
| AiTracker.CountSame | assets/js/ai-tracker.js:345-347 | zero exactly when no click hits the same id and class |
| AiTracker.MilestonesToFire | assets/js/ai-tracker.js:308-323 | exactly the milestones reached by the scroll and not yet fired |
| AiTracker.MilestoneFiresOnce | assets/js/ai-tracker.js:312-321 | a milestone fired once never fires again in the session |
| AiTracker.ReachedMilestonesAllFire | assets/js/ai-tracker.js:312-321 | a scroll reaching unfired milestones fires all of them, in order |
| AiTracker.WindowKeepsRecent | assets/js/ai-tracker.js:336-344 | trimming the history to ten never drops one of the last five clicks |
| AiTracker.NewClickCountsItself | assets/js/ai-tracker.js:343-347 | the new click always counts towards its own total |
| AiTracker.ClearedHistoryIsQuiet | assets/js/ai-tracker.js:349-362 | after the history is cleared, the next two clicks cannot report confusion |
| AiTracker.QueueStaysShort | assets/js/ai-tracker.js:210-215 | a queue shorter than a batch stays shorter than a batch after one push and flush |
| AiTracker.Tracker.FlushQueue | assets/js/ai-tracker.js:221-258 | the first min(length, 10) events go to the server in order, the rest stay queued, and no event is lost |
| AiTracker.Tracker.TrackEvent | assets/js/ai-tracker.js:193-216 | nothing when tracking is off; otherwise the event joins the stream, and a full queue is flushed |
| AiTracker.Tracker.InitTracker | assets/js/ai-tracker.js:31-40 | with tracking on, a page view is reported |
| AiTracker.Tracker.TrackScroll | assets/js/ai-tracker.js:105-126 | a scroll event and a new last position only for a move of at least ten points; any scroll counts as activity |
| AiTracker.Tracker.TrackScrollDepth | assets/js/ai-tracker.js:308-323 | the reached, unfired milestones are stored and reported in order |
| AiTracker.Tracker.CheckMilestone | assets/js/ai-tracker.js:313-321 | one milestone fires exactly when it is reached and not yet stored |
| AiTracker.Tracker.TrackClick | assets/js/ai-tracker.js:128-150 | the click is reported with the lower-cased tag name and the ClickText of the element's text, and counts as activity |
| AiTracker.Tracker.TrackFormFocus | assets/js/ai-tracker.js:152-166 | the focus is reported and counts as activity; a queue below the batch size stays below it |
| AiTracker.Tracker.TrackFormChange | assets/js/ai-tracker.js:168-191 | the change is reported with the redacted or shortened value; a queue below the batch size stays below it |
| AiTracker.Tracker.DetectConfusedUser | assets/js/ai-tracker.js:328-364 | confusion is reported exactly when at least three of the last five clicks hit the new click's element; the history is then cleared, and otherwise it keeps its last ten entries |
| AiTracker.Tracker.IdleTick | assets/js/ai-tracker.js:269-281 | idleness is reported exactly past 30000 ms, and only then is the activity clock reset |
| AiTracker.Tracker.VisibilityChange | assets/js/ai-tracker.js:68-80 | hiding reports the time spent and flushes; showing restarts the activity clock and reports it |
| AiTracker.Tracker.BeforeUnload | assets/js/ai-tracker.js:386-395 | the engagement event is queued and then flushed with the rest |
| AiTracker.Tracker.constructor | assets/js/ai-tracker.js:10-30 | a new tracker has empty queue, sent list and click history, scroll position 0, the activity clock at the start time, and the session's already fired milestones |
| Staff.Rank | includes/handlers/class-tabesh-staff.php:158-165 | a hit in the order number ranks 1, then the title 2, then the size 3, anything else 4 |
| Staff.MatchesCases | includes/handlers/class-tabesh-staff.php:148-157 | archived orders never match; an empty query matches every other order; a rank-4 match is a hit in the paper, print or binding column |
| Staff.MatchingOrders | includes/handlers/class-tabesh-staff.php:148-157 | exactly the unarchived orders where the query occurs in one of the six columns |
| Staff.InsertRanked | includes/handlers/class-tabesh-staff.php:158-165 | a permutation: the list plus the one row |
| Staff.InsertRankedKeepsRanked | includes/handlers/class-tabesh-staff.php:158-165 | inserting into a ranked list keeps it ranked |
| Staff.SortRanked | includes/handlers/class-tabesh-staff.php:158-165 | a permutation of the matching rows |
| Staff.SortRankedIsRanked | includes/handlers/class-tabesh-staff.php:158-165 | the sorted rows follow the rank, newest first within a rank |
| Staff.LimitOffset | includes/handlers/class-tabesh-staff.php:166 | the window of at most `limit` rows from `offset`; empty past the end or for a negative bound |
| Staff.LimitOffsetRanked | includes/handlers/class-tabesh-staff.php:166 | a window of a ranked list is ranked and holds only its rows |
| Staff.OneExtraRow | includes/handlers/class-tabesh-staff.php:175-178 | fetching one more row than a page and dropping it gives the page, and "has more" holds exactly when rows follow it |
| Staff.DropExtra | includes/handlers/class-tabesh-staff.php:175-178 | a fetch longer than the page loses its last row; a shorter one is kept whole |
| Staff.PagesAreAdjacent | includes/handlers/class-tabesh-staff.php:143 | consecutive pages join without gap or overlap |
| Staff.PageOfRanked | includes/handlers/class-tabesh-staff.php:166-178 | the fetched window with its extra row dropped is ranked, holds only matching rows, is exactly the per_page window at the page's offset, and "has more" holds exactly when rows follow it |
| Staff.SearchOrders | includes/handlers/class-tabesh-staff.php:139-202 | the total counts every match; every row shown is a match; the page is the ranked window at (page-1)*per_page, at most per_page rows, and "has more" holds exactly when rows follow it |
| Staff.SearchOrdersRest | includes/handlers/class-tabesh-staff.php:107-128 | an empty query (also "0") is refused with 400; otherwise 200 with the total and "has more" |
| Staff.StatusAfterSubStatus | includes/handlers/class-tabesh-staff.php:287-296 | "ready" only for a fully done order that is processing; any other status is kept |
| Staff.StaffRuleMatchesIntended | includes/handlers/class-tabesh-staff.php:287-296 | the staff rule is the intended printing auto-completion rule |
| Staff.StaffDesk.UpdateStatusRest | includes/handlers/class-tabesh-staff.php:28-99 | 400 with no write for a missing id or status; 404 for an unknown order; 400 when the update fails; on success the status is set and the log records the old and the requested status |
| Staff.StaffDesk.UpdateSubStatusRest | includes/handlers/class-tabesh-staff.php:247-320 | 400 or 404 with no write for bad input; otherwise a fully done processing order moves to "ready" with one auto-complete log, and any other order keeps its status |
| ReactDashboardApi.ClampPage | includes/handlers/class-tabesh-react-dashboard-api.php:152 | the page is at least 1, and 1 when absent |
| ReactDashboardApi.ClampPerPage | includes/handlers/class-tabesh-react-dashboard-api.php:153 | per_page lies in 1..100, and is 20 when absent |
| ReactDashboardApi.BooleanParamCases | includes/handlers/class-tabesh-react-dashboard-api.php:156 | FILTER_VALIDATE_BOOLEAN ignores case ("TRUE" is true), and "0" and an absent parameter are false |
| ReactDashboardApi.NulLedTrueIsFalse | includes/handlers/class-tabesh-react-dashboard-api.php:156 | the filter does not strip NUL, so "\0true" is false, although PHP's trim() reduces it to "true" |
| ReactDashboardApi.TotalPages | includes/handlers/class-tabesh-react-dashboard-api.php:218 | ceil(total / per_page): enough pages for every row, and no empty last page |
| ReactDashboardApi.EveryRowHasAPage | includes/handlers/class-tabesh-react-dashboard-api.php:193-218 | every row falls on an announced page, inside that page's offset window |
| ReactDashboardApi.AddIf | includes/handlers/class-tabesh-react-dashboard-api.php:163-185 | a clause is appended only when its condition holds, after the earlier ones |
| ReactDashboardApi.BuildWhere | includes/handlers/class-tabesh-react-dashboard-api.php:159-185 | the appended clause list equals the list of the filter |
| ReactDashboardApi.WhereClauses | includes/handlers/class-tabesh-react-dashboard-api.php:159-185 | one to five clauses, the archive clause first; only the archive clause exactly when status, search and both dates are empty |
| ReactDashboardApi.AdmitsAllAddIf | includes/handlers/class-tabesh-react-dashboard-api.php:163-185 | a conditionally appended clause adds its test exactly when its condition holds |
| ReactDashboardApi.WhereClausesShape | includes/handlers/class-tabesh-react-dashboard-api.php:159-166 | the archive clause always comes first; the status clause is present exactly for a non-empty status |
| ReactDashboardApi.WhereClausesMeanFilter | includes/handlers/class-tabesh-react-dashboard-api.php:159-187 | a row passes the joined clauses exactly when it meets the requested archive state and each non-empty criterion |
| ReactDashboardApi.Where | includes/handlers/class-tabesh-react-dashboard-api.php:187-191 | exactly the table rows that pass every clause |
| ReactDashboardApi.Page | includes/handlers/class-tabesh-react-dashboard-api.php:193-202 | at most per_page rows from the offset; empty past the end |
| ReactDashboardApi.Shown | includes/handlers/class-tabesh-react-dashboard-api.php:204-206 | exactly the rows the firewall lets through |
| ReactDashboardApi.Formatted | includes/handlers/class-tabesh-react-dashboard-api.php:443-456 | NULL stays; id, user_id, pages, quantity and archived become ints; total_price becomes an integral float; other columns are kept |
| ReactDashboardApi.CastInts | includes/handlers/class-tabesh-react-dashboard-api.php:443-448 | every key is kept; each numeric column that is set becomes its (int) value and every other column is unchanged |
| ReactDashboardApi.CastFloats | includes/handlers/class-tabesh-react-dashboard-api.php:450-456 | every key is kept; total_price, when an integer, becomes the same value as a float and every other column is unchanged |
| ReactDashboardApi.FormattedIdempotent | includes/handlers/class-tabesh-react-dashboard-api.php:443-456 | formatting twice changes nothing more, and total_price has no fractional part |
| ReactDashboardApi.FormatOrder | includes/handlers/class-tabesh-react-dashboard-api.php:434-459 | no order gives an empty array; otherwise every column keeps its key and is typed |
| ReactDashboardApi.FormatAll | includes/handlers/class-tabesh-react-dashboard-api.php:209 | every row is formatted, in order |
| ReactDashboardApi.GetOrders | includes/handlers/class-tabesh-react-dashboard-api.php:147-222 | clamped paging; the total counts every matching row; the orders are one page of matching rows with hidden ones removed, each formatted, never more than per_page |
| ReactDashboardApi.RowWithId | includes/handlers/class-tabesh-react-dashboard-api.php:243-248 | a row whose id reads as the requested id, or None when no row has it |
| ReactDashboardApi.GetOrder | includes/handlers/class-tabesh-react-dashboard-api.php:230-271 | 400 for an id that is not positive, 404 for no row, 403 when the firewall hides it, otherwise the formatted row |
| ReactDashboardApi.ArchiveResponse | includes/handlers/class-tabesh-react-dashboard-api.php:362-426 | 400 for an id that is not positive; 500 with "archive_failed" or "restore_failed" when the handler fails; success exactly otherwise |
| Dashboard.HasRequiredFiles | includes/class-tabesh-dashboard.php:119-137 | true exactly when the files include a text file and a cover file |
| Dashboard.LiveFiles | includes/class-tabesh-dashboard.php:99-112 | exactly the order's files that are not deleted |
| Dashboard.UserOrders | includes/class-tabesh-dashboard.php:79-92 | exactly the user's unarchived orders |
| Dashboard.Newest | includes/class-tabesh-dashboard.php:59-63 | an order of the list that no other order is newer than |
| Dashboard.StateOf | includes/class-tabesh-dashboard.php:46-71 | new user exactly when logged out or without orders; pending upload exactly when the newest order lacks a live text or cover file; tracking otherwise |
| Dashboard.DefaultTab | includes/class-tabesh-dashboard.php:144-157 | "order-form", "upload-manager" and "user-orders" for the three states, one to one |
| Dashboard.CountWhere | includes/class-tabesh-dashboard.php:268-276 | counts the orders whose status is one of the given statuses; never more than there are orders |
| Dashboard.CountPending | includes/class-tabesh-dashboard.php:280-297 | counts the orders lacking a live text or cover file (rows and DISTINCT ids agree, as `id` is the primary key); never more than there are orders |
| Dashboard.PendingCountsAnOrder | includes/class-tabesh-dashboard.php:280-297 | an order without its required live files is always counted as a pending upload |
| Dashboard.SummaryOf | includes/class-tabesh-dashboard.php:250-309 | all zeros when logged out; otherwise the total is the user's order count and each count is within it |
| Dashboard.ActiveAndCompletedDisjoint | includes/class-tabesh-dashboard.php:268-276 | active plus completed orders never exceed the total |
| Dashboard.SummaryAgreesWithState | includes/class-tabesh-dashboard.php:250-309 | a logged-in user is new exactly when the summary counts no orders, and a user sent to the upload tab has a pending upload counted |
| AdminOrderFormAccess.AllowedRoles | includes/handlers/class-tabesh-admin-order-form.php:271-291 | the stored list when it is a non-empty array, otherwise ["administrator"]; never empty |
| AdminOrderFormAccess.AllowedUsers | includes/handlers/class-tabesh-admin-order-form.php:299-319 | the stored list through intval when it is a non-empty array, otherwise empty |
| AdminOrderFormAccess.RoleAllowed | includes/handlers/class-tabesh-admin-order-form.php:247-255 | true exactly when some role of the user is, as a string, in the allowed list |
| AdminOrderFormAccess.UserHasAccess | includes/handlers/class-tabesh-admin-order-form.php:229-263 | no user denies; manage_woocommerce grants; otherwise access exactly for an allowed role or an allowed user id |
| AdminOrderFormAccess.DefaultsAdmitAdministrators | includes/handlers/class-tabesh-admin-order-form.php:283-290 | without usable settings only administrators and shop managers get in |
| AdminOrderFormAccess.ListedUserGetsIn | includes/handlers/class-tabesh-admin-order-form.php:258-260 | an id in the allowed-users list grants access whatever the roles |
| AdminOrderFormAccess.Render | includes/handlers/class-tabesh-admin-order-form.php:196-210 | login first, then access, then the V2 engine; each outcome holds exactly when the earlier checks pass and its own fails |
| PricingDiagnostic.ProductBookSizes | diagnostic-pricing-cycle.php:119-125 | the decoded array when the stored text is truthy and decodes to one; empty otherwise |
| PricingDiagnostic.StripAll | diagnostic-pricing-cycle.php:159 | removing every non-overlapping occurrence, left to right, never lengthens the key, only deletes characters (the rest keep their order), and leaves a key without the pattern unchanged |
| PricingDiagnostic.ConfiguredOf | diagnostic-pricing-cycle.php:157-176 | every configured entry has a non-empty decoded size read from its stripped key, and comes from a row |
| PricingDiagnostic.CorruptedOf | diagnostic-pricing-cycle.php:157-176 | every corrupted key comes from a row and decodes to an empty size |
| PricingDiagnostic.ClassifyMatrices | diagnostic-pricing-cycle.php:157-176 | the loop builds exactly the configured and corrupted lists |
| PricingDiagnostic.ClassificationCountsEveryRow | diagnostic-pricing-cycle.php:157-176 | every row lands in exactly one of the two lists |
| PricingDiagnostic.StripLeavesUnderscoreFree | diagnostic-pricing-cycle.php:159 | stripping the prefix leaves a base64 text unchanged |
| PricingDiagnostic.StoredKeyIsConfigured | diagnostic-pricing-cycle.php:157-176 | the key a non-empty size is stored under is classified as configured, with that size |
| PricingDiagnostic.Keep | diagnostic-pricing-cycle.php:232-244 | exactly the elements whose strict membership in the other list is as asked |
| PricingDiagnostic.KeepKeepsOrder | diagnostic-pricing-cycle.php:232-244 | the kept elements keep their original order |
| PricingDiagnostic.AlignmentPartitions | diagnostic-pricing-cycle.php:232-238 | each product size lands in exactly one of "in both" and "only in parameters" |
| PricingDiagnostic.NoPriceOnlySizes | diagnostic-pricing-cycle.php:240-244 | no price-only size exists exactly when every engine size is a product size |
| PricingDiagnostic.AlignSizes | diagnostic-pricing-cycle.php:232-244 | the two loops build exactly the three alignment lists |
| PricingDiagnostic.CollectIssues | diagnostic-pricing-cycle.php:274-296 | each issue is listed exactly when its condition holds, and the list is empty exactly when all five checks pass |
| PricingDiagnostic.Diagnose | diagnostic-pricing-cycle.php:119-296 | the whole report: the product sizes, both matrix lists and the three alignment lists exactly; each of the five issues exactly on its condition, a failed constraint manager counting as no available sizes; no issue exactly when there are product sizes, priced sizes, V2 is on, sizes are available and every priced size is a product size |
| KeyEncoding.Sextet | test-encoding-fix.php:48-55 | every 6-bit value maps to an alphabet character |
| KeyEncoding.SextetValue | test-encoding-fix.php:48-55 | defined exactly on the alphabet and inverse to Sextet |
| KeyEncoding.Encode | test-encoding-fix.php:48-55 | four characters per started group of three bytes, all alphabet characters or '=' |
| KeyEncoding.Decode | test-encoding-fix.php:59-89 | the strict decode: tab, LF, CR and space are skipped, and whatever is accepted decodes to bytes |
| KeyEncoding.SkipBlanks | test-encoding-fix.php:61 | the input without tab, LF, CR and space, every other character kept in order |
| KeyEncoding.SkipBlanksAppend | test-encoding-fix.php:61 | blanks are skipped piecewise, wherever they occur |
| KeyEncoding.DecodeSkipsBlanks | test-encoding-fix.php:61 | blanks never change what a string decodes to |
| KeyEncoding.DecodeWithTrailingBlank | test-encoding-fix.php:61 | a blank after an encoding leaves its decode unchanged |
| KeyEncoding.DecodeOfTrailingNewline | test-encoding-fix.php:61 | "QTU=" followed by a newline decodes to "A5", as PHP's strict decoder reads it |
| KeyEncoding.DecodeEncode | test-encoding-fix.php:59-89 | the strict decoder gives back every size from its encoding, including multi-byte Persian names |
| KeyEncoding.EncodeInjective | test-encoding-fix.php:139-178 | different sizes get different encodings |
| KeyEncoding.MatrixKey | test-encoding-fix.php:142-151 | "pricing_matrix_" followed by text with no underscore |
| KeyEncoding.MatrixKeyInjective | test-encoding-fix.php:139-178 | two sizes share a matrix key only when they are the same size |
| KeyEncoding.SanitizedKeyDiffers | test-encoding-fix.php:160-170 | the sanitize_key construction never gives the stored key of a non-empty size |
| KeyEncoding.SanitizedKeysCollide | test-encoding-fix.php:106-111 | all Persian sizes collapse onto the one key "pricing_matrix_" |
| KeyEncoding.TestEncodingConsistency | test-encoding-fix.php:45-91 | the encoding check passes for every list of sizes |
| KeyEncoding.SanitizeKeyCases | test-encoding-fix.php:106-111 | "A5" and "A4" lower-case; the three Persian names sanitize to "" |
| KeyEncoding.TestKeyConstruction | test-encoding-fix.php:139-178 | the base64 key always matches, and the sanitize_key key never matches a non-empty size |
| KeyEncoding.AllPassed | test-encoding-fix.php:199-201 | true exactly when every result is true |
| KeyEncoding.ExitStatus | test-encoding-fix.php:203-211 | 0 exactly when every result is true, 1 otherwise |
| KeyEncoding.RunTests | test-encoding-fix.php:184-212 | the suite exits with status 0 |
| OrderFormTab.AsArray | templates/dashboard/partials/tab-order-form.php:28-35 | an array setting is kept; anything else becomes empty |
| OrderFormTab.CleanExtra | templates/dashboard/partials/tab-order-form.php:44-47 | a surviving extra is non-empty (and not "0"), not "on" and trimmed |
| OrderFormTab.Survivors | templates/dashboard/partials/tab-order-form.php:44-47 | the filter never adds values |
| OrderFormTab.SurvivorsAppend | templates/dashboard/partials/tab-order-form.php:44-47 | filtering keeps relative order |
| OrderFormTab.CleanExtras | templates/dashboard/partials/tab-order-form.php:44-47 | every survivor is clean, and a value survives exactly when some stored value cleans to it |
| OrderFormTab.CleanExtrasAppend | templates/dashboard/partials/tab-order-form.php:44-47 | cleaning two lists joined is the two cleaned lists joined, so order is kept |
| OrderFormTab.CleanExtrasIdempotent | templates/dashboard/partials/tab-order-form.php:44-47 | a cleaned list is shown as it is |
| OrderFormTab.QuantityOf | templates/dashboard/partials/tab-order-form.php:50-52 | unset settings default to 10, 10000 and 10, and the input starts at the minimum |
| OrderFormTab.Render | templates/dashboard/partials/tab-order-form.php:18-64 | the error notice exactly when book sizes or paper types are empty; otherwise the coerced lists, the cleaned extras and the quantity input |
| OrderFormTab.DefaultQuantityInput | templates/dashboard/partials/tab-order-form.php:193-197 | with no quantity settings the input runs 10 to 10000 in steps of 10 and starts at 10 |
| TourGuide.KeyOf | includes/ai/class-tabesh-ai-tour-guide.php:105 | a canonical integer string inside PHP's 64-bit range becomes that integer key; every other string stays a string key |
| TourGuide.KeyOfDecimal | includes/ai/class-tabesh-ai-tour-guide.php:105 | the decimal form of an integer in range is that integer key |
| TourGuide.WordIsStringKey | includes/ai/class-tabesh-ai-tour-guide.php:105 | a target starting with neither a digit nor '-' stays a string key |
| TourGuide.Find | includes/ai/class-tabesh-ai-tour-guide.php:92 | found exactly when an entry has the key |
| TourGuide.Put | includes/ai/class-tabesh-ai-tour-guide.php:105 | the key maps to the new steps, every other key is as before, and keys stay distinct |
| TourGuide.Remove | includes/ai/class-tabesh-ai-tour-guide.php:120 | the key is gone, every other key is as before, and keys stay distinct |
| TourGuide.BuiltinToursDistinct | includes/ai/class-tabesh-ai-tour-guide.php:29-84 | the built-in tours have distinct keys |
| TourGuide.MergeFrom | includes/ai/class-tabesh-ai-tour-guide.php:86-90 | as written, the merge keeps keys distinct |
| TourGuide.MergeFromFindString | includes/ai/class-tabesh-ai-tour-guide.php:86-90 | under a string key, array_merge as written gives the custom tour when there is one and otherwise the built-in one |
| TourGuide.TourStepsAsWritten | includes/ai/class-tabesh-ai-tour-guide.php:86-92 | for a target that is not an integer key, the code as written finds the same steps as the key-by-key overlay |
| TourGuide.KeysOfPut | includes/ai/class-tabesh-ai-tour-guide.php:105 | an assignment adds exactly its key |
| TourGuide.ReplaceFrom | includes/ai/class-tabesh-ai-tour-guide.php:86-90 | the key-by-key overlay keeps keys distinct |
| TourGuide.ReplaceFromFind | includes/ai/class-tabesh-ai-tour-guide.php:86-90 | a custom tour under a key wins; otherwise the built-in tour stands |
| TourGuide.TourSteps | includes/ai/class-tabesh-ai-tour-guide.php:86-92 | a custom tour for the target wins, then a built-in one, and an unknown target gets no steps |
| TourGuide.OrderFormTour | includes/ai/class-tabesh-ai-tour-guide.php:30-67 | the built-in order-form tour has six steps, the last at the submit button |
| TourGuide.NonArrayOptionIgnored | includes/ai/class-tabesh-ai-tour-guide.php:87-90 | a stored value that is not an array is ignored |
| TourGuide.WithTour | includes/ai/class-tabesh-ai-tour-guide.php:102-107 | the stored tours with the new steps under the key and every other key unchanged |
| TourGuide.AddedTourIsFound | includes/ai/class-tabesh-ai-tour-guide.php:102-107 | with the corrected lookup, a tour added under a target is found under the sanitized target |
| TourGuide.NumericTourLostAsWritten | includes/ai/class-tabesh-ai-tour-guide.php:86-92 | as written, a tour added under "7" is found under "0" and not under "7"; the corrected lookup finds it under "7" |
| TourGuide.TourOption.Steps | includes/ai/class-tabesh-ai-tour-guide.php:86-92 | the corrected lookup on the current option: a custom tour wins, an unknown target gets no steps, and for a target that is not an integer key it equals the code as written |
| TourGuide.TourOption.AddCustomTour | includes/ai/class-tabesh-ai-tour-guide.php:102-108 | the steps are stored under sanitize_key(target), overwriting; the result is true exactly when the write succeeds and changes the value |
| TourGuide.TourOption.RemoveCustomTour | includes/ai/class-tabesh-ai-tour-guide.php:116-125 | false with no write for an absent key; otherwise only that key is removed and the result is the write's |
| TourGuide.RemoveTouchesOnlyItsKey | includes/ai/class-tabesh-ai-tour-guide.php:116-125 | removing a tour leaves every other custom tour as it was |

## Left out

- PhpValues.Percent: `intval(($c / $t) * 100)` works in floating point and can come out one lower than the integer `(c * 100) / t` the model uses. For example, 29 of 100 gives 28 in PHP.
- Database plumbing: SQL text, `$wpdb`, prepared statements and the insert ids MySQL hands out. Tables are sequences or maps. A failing write is modelled only where the code branches on it: the order handler's update, `update_option`, the archive handler, and a section importer that fails inside `import`.
- SQL `LIKE '%q%'` is substring containment. MySQL's case-insensitive collation is not modelled, for `LIKE` or for the `=` and `IN` comparisons (`status = %s`, `setting_key = %s`, `status IN (...)`): all of them compare strings exactly.
- REST and staff string parameters are taken as already passed through `sanitize_text_field`; the sanitiser itself is not modelled.
- ExportImport.CustomerRows: customers are exported in the order their ids first appear in the orders table. `export_customers` selects them with `WHERE ID IN (...)`, which returns them in users-table order; the set of rows is the same.
- Row order between equal sort keys is taken as table order. `get_user_orders`' `ORDER BY created_at DESC` is modelled only through its first row (Dashboard.Newest). `get_orders`' order is table order.
- `json_decode` and other host decoders are taken as given, with the decoded value stored next to the raw text. Floating-point JSON numbers are not modelled.
- The tracker's engagement score and scroll percentage are floating-point computations. They are parameters. The `setTimeout`/`setInterval`/debounce timers are host plumbing: the batch timer is FlushQueue, and the idle timer is IdleTick.
- AJAX requests, DOM updates and toasts are not modelled. This covers the admin wizard's customer search, option loading, order review and the submit request. Only their effect on the form state is modelled.
- `get_export_preview` (labels and counts of the local tables) and the section labels are not modelled.
- `get_substep_history` and `get_printing_substatus` are plain reads, modelled as `RowsOf` and a map lookup.
- Log descriptions, translated messages and HTML output are not modelled.
- The staff desk's `get_assigned_orders` and `render_staff_panel` are not modelled.
- The dashboard API's `get_statistics`, the FTP endpoints, `get_print_substeps` and `check_permission` are not modelled.
- `Tabesh_Order::update_status` and `update_sub_status` are modelled as setting the status, or as a boolean result.
- The firewall filter, the pricing engine, the constraint manager and `Tabesh_Archive` are not part of this model. They are parameters: a visibility predicate, a V2-enabled flag, the list of available sizes, and boolean results.
- The SMS completion notification is recorded only as the order id in a `notified` list.
- `decode_book_size_key` is not part of this model. It is taken as the strict base64 decode, with a rejected key read as the empty size.
- Product sizes in the diagnostic are taken as strings. Non-string entries of the decoded JSON are not modelled.
- ExportImport.VersionGreater: version strings are taken as already split into numeric components. `version_compare`'s handling of suffixes such as "beta" or "RC" is not modelled.
- ExportImport.ImportOrders: the per-value `sanitize_key`/`sanitize_text_field` pass is not modelled. Rows are written as read.
- ExportImport.ImportSettings: the same sanitize pass is not modelled. Rows are written as read.
- ExportImport.ImportSimpleTable: the same sanitize pass is not modelled. Rows are written as read.
- ExportImport.RunSections: the `failing` set stands for an importer that reports failure. None of the current `import_*` functions does, since each returns success true. With the code as written the set is empty, and the rollback path is modelled for an importer that fails.
- PhpValues.IntVal: a floating numeric prefix is read exactly, then truncated and capped. PHP first rounds it to the nearest double, so a floating form with more than about 16 significant digits can differ in its last digits: "9007199254740993.0" gives 9007199254740992 in PHP and 9007199254740993 here.
- KeyEncoding.Decode: after blanks are skipped, only complete groups of four are read, so a final group without its padding is rejected. PHP's strict `base64_decode` accepts it. Keys made by the encoder are always padded.
- Tour step messages are translated strings and are left out. Stored option values other than an array, null or false are not modelled.
- OrderFormTab.CleanExtra: float extras values are not modelled. `array_filter` keeps the original array keys, while the model gives a plain list.
- `get_setting` is assumed to return the stored value or the given default.
- ExportImport.Store.Import: the model restores a snapshot when a section fails. In MySQL, the `TRUNCATE TABLE` of a replace import commits implicitly, so the `ROLLBACK` cannot bring back a truncated table. No current importer fails, so this path is not reached as written.
- ReactDashboardApi.NotAfter: the date filters compare the parameter with `DATE(created_at)` as text. MySQL first converts the parameter to a DATE, so a form such as "2024-1-5" is read as 2024-01-05, which the model does not do.
- AiTracker.ReportedValue: lengths count Unicode scalar values, while JavaScript's `length` and `substring` count UTF-16 code units. The two differ only for characters outside the Basic Multilingual Plane; ClickText and Prefix share this.
- AiTracker.Tracker.TrackClick: the tag name is lower-cased on ASCII letters only, which covers every HTML tag name.
- Persian text is modelled as its UTF-8 bytes, one `char` per byte, wherever the code works on bytes (base64, `sanitize_key`).

## Findings

| source | as written | input that shows it | evidently intended | confidence | as-written member | corrected member |
|---|---|---|---|---|---|---|
| assets/js/admin-order-form.js:300-322 | after a customer is created, the success callback re-checks the "existing" radio and triggers its change handler, which clears `customer_id` and `new_customer_data` again | create a customer "Ali" with mobile 09123456789, then press Next on step 1 | the created customer stays selected and step 1 passes | not executed | AdminWizard.CreatedCustomerLost | AdminWizard.Wizard.OnCustomerCreated |
| includes/handlers/class-tabesh-printing-substatus.php:398-402 | `check_and_auto_complete` sets the order to "ready" whatever its current status | a delivered ("completed") order whose binding flag is set to 1 again | only a "processing" order moves to "ready", as the staff handler does | not executed | PrintingSubstatus.CompletedOrderRegresses | PrintingSubstatus.SubstatusStore.CheckAndAutoComplete |
| includes/ai/class-tabesh-ai-tour-guide.php:86-92 | `array_merge` renumbers integer keys, so a custom tour stored under a numeric id is moved to another key | `add_custom_tour("7", steps)` followed by `get_tour_steps("7")` returns no steps, and `get_tour_steps("0")` returns them | a custom tour is found under the id it was added with | not executed | TourGuide.NumericTourLostAsWritten | TourGuide.AddedTourIsFound |
