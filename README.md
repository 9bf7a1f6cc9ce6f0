# template-shaper-bot, modelled in Dafny

template-shaper-bot is a web application that produces HR documents for employees. Its
`{{key}}` templates come from a text field or a Google Doc, and it fills them in with an
employee's data. This project models the logic at the core of the application and proves
properties about it:

- **Generating a document.** The web client builds a field map for the chosen employee. It
  replaces every case variant of each `{{key}}` in the template text, one entry after the
  other. In the preview it puts markers in place of `{{assinatura}}` and `{{carimbo}}`.
- **`process-template`.** This server function extracts the text of a Google Doc and applies
  a 24-entry replacement table. It also builds `templateData` from that table and chooses
  the document's title.
- **The two jsPDF builders.** One lays out a processed template line by line, with a footer
  on every page. The other lays out a document's data fields, one labelled block each, with
  a single footer. Both name the file after the employee and the template.
- **`generate-pdf`.** This server function sanitises the storage file name, formats field
  names and falls back to "Não informado" for a falsy value.
- **Removing duplicates.** The employees are grouped by trimmed CPF. In each group the
  earliest created employee is kept and the others are deleted.
- **The CSV export.** A header, one row per item, quoting and `""` escaping, and a
  byte-order mark in front.
- **The history search.** It filters the generated documents by employee or template name,
  ignoring letter case.
- **`validate-admin-code`.** The sequence of guards that decides the reply and whether the
  role is updated.
- **`import-employees`.** The credential checks, the empty-list reply, and the insert loop
  with its tally.

The modules follow the source files:

- `DocumentGenerator`, `FieldMaps` and `Employees` model `src/components/DocumentGenerator.tsx`.
- `ProcessTemplate` models `supabase/functions/process-template/index.ts`.
- `Pdf`, `PdfFromTemplate` and `PdfGenerator` model `src/utils/pdfFromTemplate.ts` and
  `src/utils/pdfGenerator.ts`.
- `GeneratePdf` models `supabase/functions/generate-pdf/index.ts`.
- `RemoveDuplicates` models `src/components/RemoveDuplicates.tsx`.
- `Csv` models `src/utils/exportUtils.ts`.
- `DocumentHistory` models `src/components/DocumentHistory.tsx`.
- `ValidateAdminCode` and `ImportEmployees` model their server functions.

Four modules are shared. `Placeholders` models JavaScript's
`text.replace(new RegExp(p, 'gi'), v)` as a left-to-right scan: matches do not overlap,
case is compared in ASCII, and the value is inserted literally. `Strings`, `Collections`
and `JsValues` hold the string and array primitives and the JavaScript truthiness of JSON
values. Where the source changes state in a loop, the model is a method with a loop. Its
`ensures` ties the result to a recursive function, and lemmas prove properties about that
function.

Nothing outside the core is modelled. Database queries and their answers, HTTP requests,
the clock and locale formatting are parameters of the model.

## Model

| member | source | states |
|---|---|---|
| Placeholders.ReplaceFields | src/components/DocumentGenerator.tsx:100-103 | the substitution loop with `placeholder = {{key}}` applies the entries' rules in the map's insertion order, each to the text the entries before it produced |
| Placeholders.ReplaceAtMatch | src/components/DocumentGenerator.tsx:102 | at the first case-insensitive match the scan emits the value and resumes right after the match |
| Placeholders.ReplaceNoMatch | src/components/DocumentGenerator.tsx:102 | a text with no case variant of the pattern is returned unchanged |
| Placeholders.ReplacePatternCase | src/components/DocumentGenerator.tsx:102 | the `i` flag: the result does not depend on the letter case the pattern is written in |
| Placeholders.ReplaceAvoids | src/components/DocumentGenerator.tsx:102 | when the value can neither contain the pattern nor complete one across its ends, no case variant of the pattern is left after the step |
| Placeholders.ReplaceCanReformPlaceholder | src/components/DocumentGenerator.tsx:102 | one step does not always remove every occurrence: replacing `{{nome}}` by "" in `{{no{{nome}}me}}` leaves `{{nome}}` |
| Placeholders.ReplaceKeepsToken | src/components/DocumentGenerator.tsx:102 | replacing one placeholder leaves any other placeholder standing where it was, whatever the value |
| Placeholders.ApplyRulesAppend | src/components/DocumentGenerator.tsx:100-103 | applying a table is applying its first part and then its second part to the result: text an earlier value introduced is matched by later keys |
| Placeholders.ApplyRulesNoMatch | src/components/DocumentGenerator.tsx:100-103 | a text in which no pattern of the table occurs comes out unchanged |
| Placeholders.ApplyRulesKeepToken | src/components/DocumentGenerator.tsx:100-103 | a placeholder that no rule names passes through verbatim, and the text on each side is rewritten independently |
| Placeholders.UnknownPlaceholderSurvives | src/components/DocumentGenerator.tsx:72-104 | a placeholder whose key, up to case, names no field of a lower-case field map survives the substitution with no condition on the values |
| Placeholders.KeyRulesArePlaceholders | src/components/DocumentGenerator.tsx:100-101 | with lower-case keys, every pattern `{{key}}` of the rule table is a placeholder already in lower case, and entries with different keys have patterns that differ up to case |
| Employees.OrEmpty | src/components/DocumentGenerator.tsx:75-78 | `column \|\| ""` is the column when it is set and not empty, "" otherwise |
| Employees.ColumnValue | src/components/DocumentGenerator.tsx:73-94 | a field's value is "" for an absent column; otherwise it is the text, the formatted date, or `String(salary)` |
| FieldMaps.FieldMapKeys | src/components/DocumentGenerator.tsx:72-95 | a field map over distinct field names has distinct keys, each of lower-case letters and `_` |
| FieldMaps.AbsentColumnsGiveEmptyFields | src/components/DocumentGenerator.tsx:75-94 | every field whose column is absent (null, "", or a salary of 0) maps to "" |
| FieldMaps.KeyIsInjective | src/components/DocumentGenerator.tsx:72-95 | no two field names share a key |
| FieldMaps.ImageKeysAreNoFieldNames | src/components/DocumentGenerator.tsx:72-95 | `assinatura` and `carimbo` are the key of no field |
| FieldMaps.UnlistedPlaceholderSurvives | src/components/DocumentGenerator.tsx:72-104 | a placeholder whose lower-cased key is not in the field map passes through verbatim |
| FieldMaps.ImagePlaceholderSurvives | src/components/DocumentGenerator.tsx:72-104 | `{{assinatura}}` and `{{carimbo}}` survive the substitution of every field map |
| DocumentGenerator.Substitute | src/components/DocumentGenerator.tsx:98-104 | the processed text is the field map's rules applied to `template_content \|\| ""`; an empty or missing content gives "" |
| DocumentGenerator.EarlierValuesAreRescanned | src/components/DocumentGenerator.tsx:100-103 | an employee named `{{cpf}}` turns the template `{{nome}}` into the CPF, because `cpf` comes after `nome` |
| DocumentGenerator.BraceFreeValueIsFinal | src/components/DocumentGenerator.tsx:100-103 | a value without braces is not changed by any later rule |
| DocumentGenerator.PreviewOrderOmitsHireDateAndSalary | src/components/DocumentGenerator.tsx:201-222 | the preview's field map is the generator's without the `data_admissao` and `salario` entries |
| DocumentGenerator.PreviewKeepsHireDateAndSalary | src/components/DocumentGenerator.tsx:201-234 | in the preview, `{{data_admissao}}` and `{{salario}}` are not substituted |
| DocumentGenerator.MarkerStepRemovesToken | src/components/DocumentGenerator.tsx:237-242 | when a marker step fires, no case variant of its token is left, and it does not form another placeholder that was absent |
| DocumentGenerator.PreviewReplacesAllVariants | src/components/DocumentGenerator.tsx:237-242 | with a signature image and the exact token present, the preview has no case variant of `{{assinatura}}` left; likewise `{{carimbo}}` with a stamp |
| DocumentGenerator.UpperCaseSignatureKept | src/components/DocumentGenerator.tsx:237-238 | the test is case-sensitive: `{{ASSINATURA}}` alone is left as it is, although the replacement would match it |
| DocumentGenerator.OrUndefined | src/components/DocumentGenerator.tsx:122-124 | `url \|\| undefined` is defined exactly when the url is set, and then it is that url, never "" |
| DocumentGenerator.GenerateDocument | src/components/DocumentGenerator.tsx:62-132 | a missing template fails first, then a missing employee, then a missing user, then an error of the insert; otherwise the inserted row holds the field map, the substituted text and the image urls |
| DocumentGenerator.Preview | src/components/DocumentGenerator.tsx:195-253 | nothing is shown unless template and employee are found; the preview text is the substitution by the preview map followed by the two marker steps |
| ProcessTemplate.AppendRuns | supabase/functions/process-template/index.ts:71-75 | the inner loop appends to `documentText` exactly the text of the paragraph's elements, in order: each text run's content, and nothing for an element without a run or content |
| ProcessTemplate.ExtractText | supabase/functions/process-template/index.ts:66-78 | the nested loops yield the in-order concatenation of every text run of every paragraph; no body or content gives "" |
| ProcessTemplate.ElementsTextAppend | supabase/functions/process-template/index.ts:69-77 | the text of two runs of elements is the first's text followed by the second's |
| ProcessTemplate.NonParagraphAddsNothing | supabase/functions/process-template/index.ts:70 | an element that is not a paragraph contributes nothing, wherever it stands |
| ProcessTemplate.EmptyRunAddsNothing | supabase/functions/process-template/index.ts:72 | an element without a text run, or one with empty content, contributes nothing |
| ProcessTemplate.RemoveBraces | supabase/functions/process-template/index.ts:121 | `key.replace(/{{\|}}/g, '')` never lengthens the key |
| ProcessTemplate.RemoveBracesOfPlaceholder | supabase/functions/process-template/index.ts:121 | removing the braces of `{{key}}` gives back the key |
| ProcessTemplate.BuildTemplateData | supabase/functions/process-template/index.ts:119-123 | the `forEach` builds the map that writes the entries in order, each under its cleaned key |
| ProcessTemplate.DataMapKeys | supabase/functions/process-template/index.ts:119-123 | the names of `templateData` are exactly the cleaned keys of the table |
| ProcessTemplate.DataMapLastWins | supabase/functions/process-template/index.ts:120-122 | under each name `templateData` holds the value of the last entry with that name |
| ProcessTemplate.TemplateDataOfEmployee | supabase/functions/process-template/index.ts:83-123 | `templateData` maps each of the 24 field names to the value its placeholder is replaced by, and has no other names |
| ProcessTemplate.AbsentFieldsAreEmptyInTemplateData | supabase/functions/process-template/index.ts:84-107 | a field whose column is absent has the value "" in `templateData` |
| ProcessTemplate.ReplacementOrderLists | supabase/functions/process-template/index.ts:83-108 | the replacement table lists every field exactly once |
| ProcessTemplate.DocumentTitle | supabase/functions/process-template/index.ts:130 | the title is the document's or the template's name, the document's when it is set; it is empty only when neither is set |
| ProcessTemplate.Process | supabase/functions/process-template/index.ts:29-130 | template, employee and Google Doc are looked up in turn and the first failure decides the 400; otherwise the reply has the substituted text, `templateData` and the title |
| Pdf.NextPlace | src/utils/pdfFromTemplate.ts:58-61 | a cursor past `pageHeight - 30` moves to the top of a new page; any other cursor stays put |
| Pdf.DownloadName | src/utils/pdfFromTemplate.ts:80 | the file name has no white space and ends in ".pdf" |
| Strings.SqueezeRun | src/utils/pdfFromTemplate.ts:80 | `replace(/\s+/g, '_')` keeps the text before a run of white space, turns the whole run into one `_`, and goes on with the rest |
| Pdf.DownloadNameOfPlainNames | src/utils/pdfGenerator.ts:116 | names without white space give exactly `employee_template.pdf` |
| Pdf.DownloadNameOfSpacedName | src/utils/pdfFromTemplate.ts:80 | a run of white space in the employee's name becomes one `_` of the file name, with the text before it unchanged |
| PdfFromTemplate.Generate | src/utils/pdfFromTemplate.ts:16-80 | one body line per wrapped line, 7 mm apart, starting below the title and the divider, with a page break past the bottom; one footer "Página i de n" per page; the page count is the last line's page |
| PdfGenerator.LabelOfKey | src/utils/pdfGenerator.ts:84 | a listed key is shown with its label from the table; any other key is shown as it is |
| PdfGenerator.LaidOutPlaces | src/utils/pdfGenerator.ts:82-104 | blocks go one below the other, 7 mm per line, with a page break before a block whose cursor is past the bottom; none starts below `pageHeight - 30` |
| PdfGenerator.PlaceBlock | src/utils/pdfGenerator.ts:87-102 | drawing one block extends the laid-out blocks by one at the next place, and the cursor moves below it |
| PdfGenerator.LayOutBlocks | src/utils/pdfGenerator.ts:82-104 | exactly the truthy entries are drawn, in order, each with `label + ':'` at the margin and its wrapped value 40 mm to the right, and the blocks are laid out |
| PdfGenerator.Generate | src/utils/pdfGenerator.ts:36-117 | the title, the employee line, the blocks of the truthy entries, a single footer on the last page, and the file name |
| RemoveDuplicates.CpfKeyAbsent | src/components/RemoveDuplicates.tsx:43 | an employee has no CPF key exactly when its CPF is missing or only white space |
| RemoveDuplicates.PaddedCpfSharesKey | src/components/RemoveDuplicates.tsx:43-44 | white space around a CPF does not matter: the key is the CPF without it |
| RemoveDuplicates.GroupBy | src/components/RemoveDuplicates.tsx:39-52 | the `forEach` leaves one group per distinct key, in first-appearance order, holding the employees with that key in fetched order, and puts the employees without a key in `noCpf` |
| RemoveDuplicates.KeysMembers | src/components/RemoveDuplicates.tsx:45-47 | a key is in the map exactly when some employee has it |
| RemoveDuplicates.SortByCreation | src/components/RemoveDuplicates.tsx:60 | the stable sort by `created_at` is a permutation of the group |
| RemoveDuplicates.SortIsSorted | src/components/RemoveDuplicates.tsx:60 | the sorted group is ordered by `created_at` |
| RemoveDuplicates.KeepsEarliest | src/components/RemoveDuplicates.tsx:58-64 | of a group, everyone except the first of the earliest created is marked for deletion |
| RemoveDuplicates.PushDuplicates | src/components/RemoveDuplicates.tsx:58-65 | the inner loop appends the ids of the group's duplicates to `toDelete` |
| RemoveDuplicates.CollectDuplicates | src/components/RemoveDuplicates.tsx:57-66 | `toDelete` is the ids of the duplicates of every group, group after group |
| RemoveDuplicates.DeletedCount | src/components/RemoveDuplicates.tsx:57-81 | the employees with a CPF lose all but one per CPF; the kept count is those without a CPF plus one per CPF |
| RemoveDuplicates.KeepsOnlyEarliest | src/components/RemoveDuplicates.tsx:57-66 | each employee with a CPF is deleted as often as it was fetched, except the first of the earliest created in its group, which survives |
| RemoveDuplicates.NoKeyNeverDeleted | src/components/RemoveDuplicates.tsx:49-51 | an employee without a CPF is never among the deleted |
| RemoveDuplicates.NoKeyIdNeverDeleted | src/components/RemoveDuplicates.tsx:49-73 | with unique ids, no id of an employee without a CPF is sent for deletion |
| RemoveDuplicates.KeptCount | src/components/RemoveDuplicates.tsx:78-82 | `kept` equals the employees without a CPF plus one per distinct CPF |
| RemoveDuplicates.RemoveDuplicates | src/components/RemoveDuplicates.tsx:26-82 | a fetch error is thrown; no employees gives `{removed: 0, total: 0}`; the delete is issued only when `toDelete` is not empty, and its error is thrown; otherwise the summary counts the removed, the total and the kept |
| Csv.UnquoteEscape | src/utils/exportUtils.ts:10-15 | an escaped field, with its outer quotes removed and `""` read as `"`, gives back the value |
| Csv.ReadWritten | src/utils/exportUtils.ts:6-17 | fields joined by "," and records joined by "\n" read back as the records written |
| Csv.ReadExport | src/utils/exportUtils.ts:1-23 | the text starts with the byte-order mark; after it, it reads back as the headings and then one record per item holding each column's value, "" when absent |
| GeneratePdf.SanitizedShape | supabase/functions/generate-pdf/index.ts:43-59 | the sanitised name holds only ASCII letters, digits and `_`, never `__` and never a leading `_`, and fits the limit; a name that was not cut has no trailing `_` |
| GeneratePdf.CleanedShape | supabase/functions/generate-pdf/index.ts:44-49 | before the cut, the name holds only word characters, never `__`, and has an `_` at neither end |
| GeneratePdf.SqueezeUnderscoresOfSingle | supabase/functions/generate-pdf/index.ts:48 | `replace(/_+/g, '_')` changes nothing in a text without `__` |
| GeneratePdf.TruncatedNameMayEndInUnderscore | supabase/functions/generate-pdf/index.ts:47-50 | the cut comes after the trim, so "a b" cut at 2 is "a_" |
| GeneratePdf.FinalNameNonEmpty | supabase/functions/generate-pdf/index.ts:62-63 | an empty sanitised name is replaced by the fallback, so neither part of the file name is empty |
| GeneratePdf.FileNameShape | supabase/functions/generate-pdf/index.ts:65 | the file name is the employee part and `_`, the template part and `_`, the decimal digits of the timestamp, which read back as the timestamp, and ".pdf" |
| GeneratePdf.FormatFieldNameOfKey | supabase/functions/generate-pdf/index.ts:190-208 | a listed key gets its label; any other key is itself with its first letter upper-cased |
| GeneratePdf.CapitalizeKeepsKey | supabase/functions/generate-pdf/index.ts:207 | capitalising keeps the length and the rest of the key, and changes the first letter only in case |
| GeneratePdf.ShownValueFallback | supabase/functions/generate-pdf/index.ts:177 | a falsy value is shown as "Não informado", a non-empty string as itself, and a string is never shown empty |
| GeneratePdf.EveryEntryShown | supabase/functions/generate-pdf/index.ts:174-179 | every entry is shown, even a falsy one, under its key's label |
| DocumentHistory.Search | src/components/DocumentHistory.tsx:28 | the result is present exactly when the query has returned |
| DocumentHistory.SearchKeepsMatches | src/components/DocumentHistory.tsx:28-31 | a document is kept, as often as it occurs, exactly when its lower-cased employee or template name contains the lower-cased term, and the result keeps the query's order |
| DocumentHistory.EmptyTermKeepsAll | src/components/DocumentHistory.tsx:28-31 | an empty search term keeps every document |
| DocumentHistory.SearchIgnoresCase | src/components/DocumentHistory.tsx:29-30 | two terms that differ only in letter case find the same documents |
| ValidateAdminCode.Validate | supabase/functions/validate-admin-code/index.ts:24-101 | the status is 200 exactly when `success` is true, and the only user whose role may be updated is the requested one |
| ValidateAdminCode.MissingFieldsFirst | supabase/functions/validate-admin-code/index.ts:24-35 | a falsy `userId` or `accessCode` gives 400 before anything else is looked at |
| ValidateAdminCode.UnconfiguredIsServerError | supabase/functions/validate-admin-code/index.ts:38-52 | an unset or empty `ADMIN_ACCESS_CODE` gives 500, whatever code is presented |
| ValidateAdminCode.WrongCodeForbidden | supabase/functions/validate-admin-code/index.ts:55-67 | a code that is not strictly equal to the configured one gives 403 with no role update |
| ValidateAdminCode.UpdateOnlyOnMatch | supabase/functions/validate-admin-code/index.ts:69-75 | the role update is issued exactly when a user id is given and the code matches exactly |
| ValidateAdminCode.SuccessOnlyWhenGranted | supabase/functions/validate-admin-code/index.ts:77-101 | `success: true` comes only from the last branch, a match whose update reported no error; a failed update is a 500 |
| ImportEmployees.CheckCredentials | supabase/functions/import-employees/index.ts:21-33 | the credentials pass exactly when both are set, the URL starts with "http://" or "https://", and the key starts with "eyJ" |
| ImportEmployees.CredentialChecksInOrder | supabase/functions/import-employees/index.ts:21-33 | a missing credential is reported first, then a bad URL, then a bad key |
| ImportEmployees.Shown | supabase/functions/import-employees/index.ts:27-32 | `substring(0, 50)` is the whole value when it has at most 50 characters, and its first 50 characters otherwise |
| ImportEmployees.Payload | supabase/functions/import-employees/index.ts:72 | the inserted record is the employee without `id`, `created_at` and `updated_at`, with every other field unchanged |
| ImportEmployees.ImportAll | supabase/functions/import-employees/index.ts:67-87 | each employee, in order, is inserted exactly once without its generated columns, as the attempt numbered by its position; the new rows and the errors are those of the successful and the failed attempts |
| ImportEmployees.TallyTotal | supabase/functions/import-employees/index.ts:67-93 | imported plus failed is the number of employees |
| ImportEmployees.NoFailures | supabase/functions/import-employees/index.ts:80-86 | no error is collected exactly when every insert succeeds |
| ImportEmployees.CompletedTally | supabase/functions/import-employees/index.ts:89-95 | the reply counts every employee once, and it lists `errors` exactly when some insert failed |
| ImportEmployees.Import | supabase/functions/import-employees/index.ts:21-95 | a credential or fetch failure is a 500 with no insert; no employees gives "No employees found to import" with 0 imported; otherwise every employee is inserted and the reply is the tally |

## Behaviour worth knowing

Some consequences of the code that a reader may not expect, each proved in the model:

- Substituted values are re-scanned by later keys (`DocumentGenerator.EarlierValuesAreRescanned`).
- A placeholder whose key is not in the field map is left verbatim, not replaced by "" (`FieldMaps.UnlistedPlaceholderSurvives`).
- A single replacement pass can leave a placeholder behind (`Placeholders.ReplaceCanReformPlaceholder`).
- Both PDF builders start a new page past `pageHeight - 30`; they never truncate (`Pdf.NextPlace`).
- `process-template`'s table has 24 entries: it adds `numero_carteira_trabalho` and `serie` to the client's 22 (`ProcessTemplate.ReplacementOrderLists`).
- The preview's marker test is case-sensitive, while its replacement is not (`DocumentGenerator.UpperCaseSignatureKept`).
- No code modelled places a signature or stamp image at `{{assinatura}}` or `{{carimbo}}`.

## Left out

- User interface, state hooks, toasts, CORS and the JSON request and response plumbing are not modelled. Only the decision that picks each reply is.
- Every Supabase call is an input of the model: queries, inserts, updates, deletes, storage and auth. This includes generate-pdf's upload, document update and public URL. `.single()` is modelled as a lookup whose absent row is the error. An insert's outcome is a parameter: the error of the `generated_documents` insert, and the outcome of each attempt of import-employees.
- DocumentGenerator.GenerateDocument: the result is the row sent to the insert, not the row `.select().single()` gives back, which would add the columns the database fills in.
- The external HTTP requests are not modelled: the Google Docs fetch is an input, and the html2pdf call and the HTML markup of generate-pdf are left out.
- jsPDF's drawing, `splitTextToSize` and `save` are left out. The wrapped lines are an input, and fonts and colours are not modelled.
- The logo placement is left out. Its aspect ratio is floating-point arithmetic, and the image loads asynchronously.
- `toLocaleDateString`, `toLocaleTimeString`, `String(number)`, `new Date().toISOString()` and `Date.now()` are parameters.
- Dates are taken as given strings and timestamps as integers, so an invalid date, whose time is `NaN`, is not modelled.
- `normalize('NFD')` is left out. Names are taken as already decomposed, and the combining marks U+0300 to U+036F are filtered out.
- Letter case and `\s` are ASCII only, with no Unicode case folding or Unicode white space.
- Placeholders.ReplaceAll: `$` patterns in replacement values (`$&`, `$1`, …) are not expanded. Values are inserted literally.
- Placeholders.ReplaceAll: keys are taken as holding no regular-expression metacharacters, as is true of every key in the field maps.
- `NaN` is not modelled, so it is not among the falsy numbers of `JsValues.Truthy`.
- Csv.ReadExport: the round trip is stated only for headings without ",", `"` or a newline, because the source writes headings unescaped.
- Csv.ReadExport: `String(value)` is taken as already applied; a missing `null` or `undefined` member gives "".
- GeneratePdf.FormatFieldName: the field-name table is modelled as a list. A key inherited from `Object.prototype`, such as `constructor`, would find a function in the source, and this is left out.
- PdfGenerator.Label: the label table is modelled as a list. A key inherited from `Object.prototype`, such as `constructor`, would find a function in the source and print its text, and this is left out.
- ProcessTemplate.Paragraph: a paragraph always has a list of elements. In the source a paragraph without `elements` throws a `TypeError`, which the handler's `catch` turns into a 400 reply; that path is left out.
- GeneratePdf.ShownValue: `String(value)` of a value that is not a string is a parameter.
- RemoveDuplicates.RemoveDuplicates: an answer of `null` rows without an error is modelled as an empty list. The sort comparator is taken on integer timestamps.
- ImportEmployees.Import: `localUrl!` and `localServiceKey!` are not checked in the source and not modelled. A thrown error other than the three credential checks and the fetch error is left out, and so is an exception inside the loop.
- ImportEmployees.NameOf: an `undefined` name is `Null`, although `JSON.stringify` drops such a member rather than writing `null`.
- ValidateAdminCode.Validate: a request body that is not JSON is left out; in the source its `catch` gives 500.
- The signature and stamp images are never placed in a PDF by the code modelled; only the preview markers are.
- LogoUpload, ImageUpload and the capacitor configuration are storage I/O or configuration and are not modelled.
- Placeholders.ReplaceAvoids: a single replacement step is proved to remove every case variant of its pattern only when the value can neither contain it nor complete one across its ends. Counterexample: `Placeholders.ReplaceCanReformPlaceholder`.
