# CRM core rules in Dafny

This project models the deterministic core of a small French-language CRM web application: a
Next.js server with Prisma and React client components. It covers:

- the object-key builder of the storage helper;
- the server actions that normalise submitted forms and guard products, contacts and documents by
  session and owner;
- the client components' state machines, each handler taking the awaited server result as a
  parameter;
- the pure display and filter rules of the contact and product tables.

Each source file has its own module:

| module | file |
|---|---|
| `Storage` | `storage.dfy` |
| `ProductActions` | `product_actions.dfy` |
| `ContactActions` | `contact_actions.dfy` |
| `DocumentActions` | `document_actions.dfy` |
| `ContactDetail` | `contact_detail_form.dfy` |
| `ContactDocuments` | `contact_documents.dfy` |
| `CreateContactSheet` | `create_contact_sheet.dfy` |
| `EditContactSheet` | `edit_contact_sheet.dfy` |
| `ProductSheet` | `product_sheet.dfy` |
| `ContactsColumns` | `contacts_columns.dfy` |
| `ContactsTable` | `contacts_data_table.dfy` |
| `ProductsColumns` | `products_columns.dfy` |
| `ProductsTable` | `products_data_table.dfy` |
| `StatusBadge` | `status_badge.dfy` |

Four shared modules support them:

- `Wrappers`: Option, Result, and the Outcome of an awaited call.
- `Text`: JavaScript `trim`, ASCII case mapping, `includes`, `startsWith`, and decimal rendering.
- `Ordering`: the newest-first `findMany` queries and `take`.
- `TableFooter`: the count line shared by both tables.

How the model is built:

- **Server actions** are functions over a table modelled as a `map` from id to row. They return the
  new table or the error message the action throws. The session is an `Option` of the user id. The
  id and creation time the database assigns are parameters.
- **React components** are classes with one field per `useState` variable. An async handler takes
  the way its server call settles (`Outcome`, `Result` or a reply) and returns what it sent to the
  server.

## Model

| member | source | states |
|---|---|---|
| Storage.StripSlashes | lib/storage.ts:124 | the result has no slash at either end |
| Storage.StripSlashesMiddle | lib/storage.ts:124 | the result is the slice of the part after its leading slash run, and only slashes are cut off before and after it |
| Storage.StripSlashesEmptyIff | lib/storage.ts:124-125 | a part strips to nothing exactly when it is empty or all slashes |
| Storage.StripSlashesKeepsUnslashed | lib/storage.ts:124 | a part with no end slash is kept whole, interior slashes included |
| Storage.StripSlashesInterior | lib/storage.ts:124 | "/a/b/" becomes "a/b" |
| Storage.BuildKey | lib/storage.ts:122-127 | the key never starts or ends with "/" |
| Storage.JoinUnslashed | lib/storage.ts:126 | joining non-empty unslashed parts with "/" gives an unslashed string, empty only for no parts |
| Storage.BuildKeyAppend | lib/storage.ts:122-127 | the key of a + b is the key of a and the key of b with exactly one "/" between them when both are non-empty |
| Storage.BuildKeySkipsSlashOnlyPart | lib/storage.ts:124-125 | a part that is empty or all slashes can be removed without changing the key |
| Storage.BuildKeyOfNothing | lib/storage.ts:124-125 | `buildKey()` and `buildKey("", "//")` are both "" |
| Storage.BuildKeyTriple | lib/storage.ts:124-126 | three non-empty unslashed parts appear in order, separated by single slashes |
| Storage.BuildKeyExample | lib/storage.ts:118-121 | `buildKey("contacts","abc123","invoice.pdf")` is "contacts/abc123/invoice.pdf" |
| Storage.BuildKeyStable | lib/storage.ts:118-127 | building a key from a key gives the same key back |
| Text.Trim | app/actions/products.ts:10-13 | the trimmed text is a slice of the input with no white space at either end and only white space cut off |
| Text.TrimEmptyIffAllWhite | app/actions/products.ts:10-11 | a text trims to "" exactly when it is all white space |
| Text.TrimIdempotent | app/actions/products.ts:10-13 | trimming twice is trimming once |
| Text.SearchIncludes | components/contacts-table/data-table.tsx:61-67 | the lower-cased `includes` test holds exactly when the lower-cased query occurs at some position of the lower-cased field |
| Text.IncludesIffOccurs | components/products-table/data-table.tsx:55-58 | the left-to-right `includes` scan agrees with "occurs at some index" |
| Text.NatToStringRoundTrip | components/contact-documents.tsx:11 | the decimal text of a number reads back as that number |
| Ordering.SortNewestFirst | app/actions/products.ts:50-53 | the same rows, as a multiset, ordered by descending creation time |
| Ordering.FindManyNewestFirst | app/actions/contacts.ts:50-52 | exactly the table's rows that satisfy the filter, newest first |
| Ordering.FindManyDistinct | app/actions/contacts.ts:50-52 | over a table that holds no row under two keys, each matching row is returned once |
| Ordering.TakeKeepsNewest | app/actions/contacts.ts:50-54 | a prefix of a newest-first list stays newest first, and no row left out is newer than a kept one |
| ProductActions.Schedule | app/actions/products.ts:19-29 | an interval only for RECURRING (MONTHLY when the field is empty); a deposit type only for an enabled deposit on ONE_TIME (FIXED when empty) |
| ProductActions.ParseProductFields | app/actions/products.ts:9-44 | refused exactly when the trimmed name is blank ("Le nom est requis", checked first) or the price does not parse ("Le prix est requis"); otherwise the trimmed name and description, the parsed price, the billing type (ONE_TIME when empty), the deposit flag exactly for "on", the interval and deposit type that `Schedule` gives (MONTHLY and FIXED defaults), and the parsed deposit value exactly for an enabled deposit |
| ProductActions.BlankNameRefused | app/actions/products.ts:10-11 | a name made only of white space is refused with "Le nom est requis" |
| ProductActions.RecurringDepositHasNoType | app/actions/products.ts:24-29 | depositEnabled "on" with RECURRING billing is stored as enabled, with no deposit type |
| ProductActions.ParseFieldsForm | app/actions/products.ts:9-44 | every well-formed field set is what the parser makes of its own form, so `WellFormed` is exactly what the parser can produce |
| ProductActions.GetAllProducts | app/actions/products.ts:46-54 | [] for an anonymous caller; otherwise exactly the caller's products, newest first, each once, as many as the caller owns |
| ProductActions.AllProductsOnce | app/actions/products.ts:50-53 | over a table keyed by row id, the caller's list has no repeat and one entry per product the caller owns |
| ProductActions.CreateProduct | app/actions/products.ts:56-67 | "Non autorisé" without a session; otherwise the parser's error, or one new row owned by the caller with the parsed fields and nothing else changed |
| ProductActions.UpdateProduct | app/actions/products.ts:69-81 | "Non autorisé", then "Produit introuvable" for a missing or foreign product, then the parser's error; on success only that row's fields change |
| ProductActions.DeleteProduct | app/actions/products.ts:83-93 | "Non autorisé", then "Produit introuvable"; on success exactly that row is removed |
| ProductActions.ActionsKeepStoreOk | app/actions/products.ts:56-93 | every successful action keeps each row under its own id with well-formed fields |
| ProductActions.OtherUsersUnaffected | app/actions/products.ts:69-93 | an update or delete by one user leaves every other user's product list holding the same products (the order of products with equal creation times is not fixed) |
| ProductActions.CreatedProductListed | app/actions/products.ts:46-67 | a created product is in its creator's list |
| ContactActions.OrNull | app/actions/contacts.ts:19-21 | an empty or missing field becomes null, any other text is kept untrimmed |
| ContactActions.CreateContact | app/actions/contacts.ts:8-39 | "Non autorisé" before anything else; then "Le prénom et le nom sont requis" when either name is missing or empty, untrimmed and even with a company; otherwise one row owned by the caller with the names as submitted and null for empty email, phone and company |
| ContactActions.CreateContactIntended | components/create-contact-sheet.tsx:32-39 | corrected `createContact`: accepts exactly when both trimmed names, or else the trimmed company, are non-blank |
| ContactActions.IntendedRowIdentified | components/create-contact-sheet.tsx:36 | a contact accepted by the corrected check has both names or a non-blank company |
| ContactActions.IntendedAcceptsMore | app/actions/contacts.ts:23-25 | every contact accepted as written, unless a name is all white space, is accepted by the corrected check |
| ContactActions.GetRecentContacts | app/actions/contacts.ts:41-55 | [] for an anonymous caller; otherwise the caller's 5 newest contacts, newest first, none left out newer than one listed; over a table keyed by row id each contact appears once and the list has exactly min(5, number the caller owns) entries |
| ContactActions.RecentNewest | app/actions/contacts.ts:50-54 | at most 5 rows, newest first, all the caller's, and no contact of the caller left out is newer than a listed one |
| ContactActions.RecentAll | app/actions/contacts.ts:50-54 | when fewer than 5 are listed, every contact of the caller is listed |
| ContactActions.RecentCount | app/actions/contacts.ts:50-54 | over a table keyed by row id, no contact is listed twice and the length is min(5, number the caller owns) |
| ContactActions.CreateKeepsStoreOk | app/actions/contacts.ts:27-37 | creating a contact under a fresh id keeps every row under its own id, as written and corrected |
| ContactActions.NewContactListed | app/actions/contacts.ts:27-54 | a created contact is among the recent ones while the caller has fewer than five |
| DocumentActions.ToItems | app/actions/documents.ts:26-32 | one item per row, in the same order, keeping id, name, size and content type and writing createdAt as ISO text |
| DocumentActions.ContactDocumentRows | app/actions/documents.ts:17-24 | [] for an anonymous caller; otherwise exactly the caller's documents of that contact, newest first |
| DocumentActions.DocumentsOnce | app/actions/documents.ts:17-24 | over a table keyed by row id, each of those documents is listed once and the list is as long as the set of them |
| DocumentActions.GetContactDocuments | app/actions/documents.ts:17-33 | the rows above projected one to one, in order |
| DocumentActions.ListedDocumentsOwned | app/actions/documents.ts:17-33 | every listed document is the caller's and that contact's, and each such document is listed |
| DocumentActions.GetDocumentForViewer | app/actions/documents.ts:35-56 | null exactly when there is no session or the document is missing or foreign; otherwise its fields, the signed URL of its key and its contact |
| DocumentActions.DeleteContactDocument | app/actions/documents.ts:58-71 | "Non autorisé", then "Document introuvable" with no effect; the file is deleted before the row, and when the file deletion fails its error is thrown and the row stays; on success exactly that row goes |
| DocumentActions.FileGoesFirst | app/actions/documents.ts:67-68 | a row deletion is always preceded by the deletion of that document's file |
| DocumentActions.DeletedDocumentUnlisted | app/actions/documents.ts:68 | after a deletion the contact's list, as a multiset, is the old list minus exactly one copy of that document |
| DocumentActions.DeletionKeepsOthers | app/actions/documents.ts:68 | removing a row keeps the table keyed by row id and keeps exactly the rows with another id |
| ContactDetail.LoadKeepsPrefix | components/contact-detail-form.tsx:243-244 | pages read at offset = number shown, the `skip` `HandleLoadMore` sends, keep the shown events a prefix of the full timeline |
| ContactDetail.ContactDetailForm.constructor | components/contact-detail-form.tsx:179-190 | the first render holds the server's page, remembers its first id, and clears every flag |
| ContactDetail.ContactDetailForm.Render | components/contact-detail-form.tsx:192-197 | a new first event id replaces the events and `hasMore` by the server's page; otherwise nothing changes |
| ContactDetail.ContactDetailForm.HandleLoadMore | components/contact-detail-form.tsx:240-249 | asks with skip = number shown; appends the page, keeping the old events as a prefix, and takes its `hasMore`; not loading afterwards |
| ContactDetail.ContactDetailForm.HandleAddNote | components/contact-detail-form.tsx:228-238 | a blank draft sends nothing; otherwise the trimmed draft is sent and cleared only on success |
| ContactDetail.ContactDetailForm.HandleSubmit | components/contact-detail-form.tsx:199-213 | success is set exactly when the update resolves, the error is the rejection's message or "", loading ends |
| ContactDetail.ContactDetailForm.HandleDelete | components/contact-detail-form.tsx:215-226 | deleting stays set on success; on failure the message is shown and the dialog closes |
| ContactDetail.RelativeAge | components/contact-detail-form.tsx:112-123 | the unit and floored count of the difference: under a minute, minutes below 60, hours below 24, days below 7, otherwise the absolute date |
| ContactDetail.RelativeAgeMonotone | components/contact-detail-form.tsx:112-123 | an older event never gets a finer unit, nor a smaller count in the same unit |
| ContactDetail.FormatRelativeTime | components/contact-detail-form.tsx:112-123 | "À l'instant" under a minute; "il y a " then the count's decimal text (no leading zero), reading back as the count, then " min", "h" or "j"; the long date from a week on |
| ContactDetail.RelativeTextDecodes | components/contact-detail-form.tsx:116-121 | under a week, equal texts mean equal unit and count |
| ContactDetail.IsLast | components/contact-detail-form.tsx:511 | never last while more can load; otherwise last exactly at index count - 1 |
| ContactDetail.LastItems | components/contact-detail-form.tsx:511 | exactly the final item is "last" when the timeline is complete, none while more can load |
| ContactDetail.DetailInitials | components/contact-detail-form.tsx:251-252 | two characters: the upper-cased first letters of first and last name |
| ContactDetail.TransitionLabels | components/contact-detail-form.tsx:158-162 | both ends of a status change go through the status label lookup |
| ContactDocuments.SizeOf | components/contact-documents.tsx:10-14 | bytes below 1024, else whole Ko below 1 MiB, else tenths of a Mo, each rounded to nearest with ties up |
| ContactDocuments.SizeBounds | components/contact-documents.tsx:12-13 | Ko counts stay between 1 and 1024, Mo at least 1.0 |
| ContactDocuments.FormatSize | components/contact-documents.tsx:10-14 | before " o" the decimal text (no leading zero) of the bytes, before " Ko" that of the rounded Ko count, and before " Mo" that of the whole Mo then one decimal for the tenths, each as SizeOf computes them and reading back as it |
| ContactDocuments.FormatSizeUnit | components/contact-documents.tsx:10-14 | the text ends in " o", " Ko" or " Mo" according to the range, digits before |
| ContactDocuments.IsImage | components/contact-documents.tsx:22-27 | the image icon exactly when the content type is "image/" followed by anything |
| ContactDocuments.IconExamples | components/contact-documents.tsx:22-27 | "image/png" gets the image icon and "application/pdf" does not |
| ContactDocuments.RemoveId | components/contact-documents.tsx:72 | keeps exactly the documents with another id |
| ContactDocuments.RemoveIdAppend | components/contact-documents.tsx:72 | filtering keeps the order of what stays |
| ContactDocuments.UploadThenDeleteRestores | components/contact-documents.tsx:58-72 | uploading a document with a new id and deleting it gives back the list |
| ContactDocuments.DocumentList.HandleFileChange | components/contact-documents.tsx:42-63 | no file: nothing; else the new document is put in front, or the reply's error (fixed text when none) is shown; not uploading afterwards |
| ContactDocuments.DocumentList.HandleDelete | components/contact-documents.tsx:65-78 | on success exactly the entries with that id go; on failure the list stays and "Erreur lors de la suppression" is shown; nothing pending afterwards |
| CreateContactSheet.CreateContactSheet.SetOpen | components/create-contact-sheet.tsx:53 | the sheet follows the value; loading and error are kept |
| CreateContactSheet.CreateContactSheet.HandleSubmit | components/create-contact-sheet.tsx:27-50 | a refused form sets the message and calls nothing, loading untouched; otherwise `createContact` is called, the sheet closes only on success, loading ends |
| CreateContactSheet.CompanyAlonePasses | components/create-contact-sheet.tsx:36 | a non-blank company passes whatever the names |
| CreateContactSheet.SheetAndServerDisagree | app/actions/contacts.ts:23-25 | every form the sheet passes with an empty name is refused by the server as written |
| CreateContactSheet.CompanyOnlyRefused | components/create-contact-sheet.tsx:36 | "Acme" with empty names passes the sheet and is refused by the server as written |
| CreateContactSheet.SheetAgreesWithIntended | components/create-contact-sheet.tsx:32-39 | the sheet accepts a form exactly when the corrected server action stores it |
| EditContactSheet.DeleteLabel | components/edit-contact-sheet.tsx:182-186 | "Suppression..." while deleting, else "Confirmer la suppression" exactly when armed, else "Supprimer le contact" |
| EditContactSheet.EditContactSheet.HandleSubmit | components/edit-contact-sheet.tsx:50-65 | no contact: nothing; otherwise update that contact, close only on success, show the message on failure, loading ends |
| EditContactSheet.EditContactSheet.HandleDelete | components/edit-contact-sheet.tsx:67-85 | no contact: nothing; the first press only arms; a press while armed deletes once, closes on success, and disarms and ends deleting |
| EditContactSheet.EditContactSheet.HandleOpenChange | components/edit-contact-sheet.tsx:87-93 | closing disarms and clears the error; the value is passed on |
| ProductSheet.SubmissionGet | components/product-sheet.tsx:58-59 | billingType always; interval only for RECURRING; deposit type and value only for an enabled ONE_TIME deposit; "on" whenever the deposit flag is set |
| ProductSheet.InitialBilling | components/product-sheet.tsx:39-41 | the edited product's billing type, ONE_TIME for a new product |
| ProductSheet.InitialDeposit | components/product-sheet.tsx:42 | the edited product's deposit flag, off for a new product |
| ProductSheet.ProductSheet.constructor | components/product-sheet.tsx:36-45 | billing, deposit flag and type come from the product, else ONE_TIME, off and FIXED |
| ProductSheet.ProductSheet.ResetState | components/product-sheet.tsx:47-52 | the same initial values, and the error cleared |
| ProductSheet.ProductSheet.OnOpenChange | components/product-sheet.tsx:77 | the sheet follows the value and resets only when it opens |
| ProductSheet.ProductSheet.SetBillingType | components/product-sheet.tsx:129-137 | the button sets ONE_TIME or RECURRING and nothing else changes |
| ProductSheet.ProductSheet.SetDepositEnabled | components/product-sheet.tsx:166 | the checkbox sets the deposit flag and nothing else changes |
| ProductSheet.ProductSheet.SetDepositType | components/product-sheet.tsx:179-187 | the button sets FIXED or PERCENTAGE and nothing else changes |
| ProductSheet.ProductSheet.HandleSubmit | components/product-sheet.tsx:54-72 | submits the form the state calls for, to update for an existing product and create otherwise; closes only on success |
| ProductSheet.ServerReadsSheetState | components/product-sheet.tsx:94-97 | what `parseProductFields` stores from the sheet's submission: its billing type and deposit flag, the interval only for RECURRING, deposit type and value only for an enabled ONE_TIME deposit |
| StatusBadge.StatusLabel | components/contact-status-badge.tsx:3-8 | a known status gets its label, any other is shown raw |
| StatusBadge.StatusColor | components/contact-status-badge.tsx:10-21 | a known status gets its own class from the colour table, any other status "" |
| StatusBadge.ColorsApart | components/contact-status-badge.tsx:10-15 | the four known statuses have pairwise different colour classes |
| StatusBadge.KnownLabels | components/contact-detail-form.tsx:81-86 | LEAD, PROSPECT, CLIENT, INACTIVE read Lead, Prospect, Client, Inactif |
| StatusBadge.BadgeTellsStatusesApart | components/contact-status-badge.tsx:3-23 | equal label and colour mean equal status |
| TableFooter.FooterText | components/contacts-table/data-table.tsx:160-163 | count and noun, an "s" exactly when the count is not 1, and the page indicator exactly when the count is above 0 |
| TableFooter.Indicator | components/contacts-table/data-table.tsx:162 | " · Page ", then the decimal text (no leading zero) of pageIndex + 1, then " sur ", then that of the page count, each reading back as its number |
| TableFooter.FooterIndicator | components/contacts-table/data-table.tsx:160-163 | for a non-zero count the footer is the count, the noun and its plural "s", then exactly that page indicator |
| TableFooter.FooterCountReadsBack | components/products-table/data-table.tsx:152-156 | the number in front of the footer reads back as the row count |
| ContactsColumns.NameKey | components/contacts-table/columns.tsx:23-26 | "first last" when both names are non-empty, else the company, else "" |
| ContactsColumns.DisplayName | components/contacts-table/columns.tsx:34-36 | the full name, else the company, else "—" |
| ContactsColumns.DisplayFollowsSortKey | components/contacts-table/columns.tsx:23-36 | the shown name is the sort key exactly when there is a full name or a company; otherwise "" sorts and "—" shows |
| ContactsColumns.Initials | components/contacts-table/columns.tsx:30-33 | both upper-cased first letters, else the company's, else "?" |
| ContactsColumns.InitialsLength | components/contacts-table/columns.tsx:30-33 | one or two characters, two exactly with both names |
| ContactsColumns.EmailCell | components/contacts-table/columns.tsx:45 | the email, or "—" when it is null |
| ContactsColumns.OrDash | components/contacts-table/columns.tsx:65-70 | "—" for a null or empty company or phone |
| ContactsColumns.CompanyCell | components/contacts-table/columns.tsx:65 | the company when it is present and non-empty, else "—" |
| ContactsColumns.PhoneCell | components/contacts-table/columns.tsx:70 | the phone when it is present and non-empty, else "—" |
| ContactsColumns.StatusFilter | components/contacts-table/columns.tsx:86 | "ALL" keeps every row; any other value keeps exactly the rows with that status |
| ContactsColumns.DateCell | components/contacts-table/columns.tsx:101-108 | two digits reading back as the UTC day, a space, then the French abbreviation of the month, a space and the year |
| ContactsColumns.DateCellInjective | components/contacts-table/columns.tsx:102-107 | two cells are equal exactly when day, month and year are |
| ContactsTable.ContactMatchesAsWritten | components/contacts-table/data-table.tsx:60-69 | as written: throws exactly on a null first name, or a null last name when the first name does not match; any answer it gives is the intended one |
| ContactsTable.ContactMatches | components/contacts-table/data-table.tsx:60-69 | a row matches exactly when the query occurs, ignoring case, in a present first name, last name, email or company |
| ContactsTable.IntendedCompanyOnlyContactBreaksSearch | app/actions/contacts.ts:17-21 | a company-only contact stored by the corrected action makes the written search throw |
| ContactsTable.StatusFilters | components/contacts-table/data-table.tsx:47-49 | "ALL" clears the column filters, any other value sets one status filter; the picker shows back the chosen value |
| ContactsTable.PickerValue | components/contacts-table/data-table.tsx:101 | the first status filter's value, "ALL" when there is none |
| ContactsTable.PickerFilters | components/contacts-table/data-table.tsx:47-49 | after choosing a value, "ALL" keeps every row and any other value exactly the rows with that status |
| ContactsTable.FilteredRows | components/contacts-table/data-table.tsx:52-69 | with the corrected null-safe search (ContactMatches, which agrees with the as-written search on every row that has both names, see ContactMatchesAsWritten): each row kept exactly when it passes the status filter and, for a non-empty query, the search, with its multiplicity in the data |
| ContactsTable.FilteredRowsAppend | components/contacts-table/data-table.tsx:52-69 | filtering a + b is filtering a then b, so the order of the rows kept is the data's order |
| ContactsTable.Footer | components/contacts-table/data-table.tsx:160-163 | the footer starts with the number of filtered rows, in digits, then a space |
| ContactsTable.NothingFilteredCountsAll | components/contacts-table/data-table.tsx:160 | with no query and "ALL", every row is counted |
| ContactsTable.ContactsDataTable.HandleStatusFilter | components/contacts-table/data-table.tsx:47-49 | the filters are set and the picker shows back the chosen value |
| ContactsTable.ContactsDataTable.HandleRowClick | components/contacts-table/data-table.tsx:80-83 | the clicked contact is edited and the sheet opens |
| ProductsColumns.IntervalLabel | components/products-table/columns.tsx:19-24 | the French label of a known interval, the raw code otherwise |
| ProductsColumns.IntervalLabelsApart | components/products-table/columns.tsx:19-24 | the four known intervals have distinct labels |
| ProductsColumns.DetailCell | components/products-table/columns.tsx:30-43 | the interval exactly for RECURRING with an interval; a deposit exactly for an enabled ONE_TIME deposit with a value, as a percentage exactly for PERCENTAGE; a dash otherwise |
| ProductsColumns.BillingBadge | components/products-table/columns.tsx:68-73 | "Récurrent" exactly for RECURRING, "Unique" otherwise |
| ProductsColumns.ShowsDescription | components/products-table/columns.tsx:52-54 | the description line shows exactly when there is a non-empty description |
| ProductsColumns.ToRow | app/catalog/page.tsx:22-28 | the stored product's fields as they are, the price and a present deposit value written by `show`, a missing deposit value kept missing, and the creation time written by `toIso` |
| ProductsColumns.StoredProductDetail | components/products-table/columns.tsx:30-54 | for a stored product: the interval exactly when recurring, the deposit exactly for a one-time product with a deposit value, and the description line exactly when there is one |
| ProductsTable.ProductMatches | components/products-table/data-table.tsx:54-60 | a product matches exactly when the query occurs, ignoring case, in its name or its present description |
| ProductsTable.NoDescriptionMatchesByName | components/products-table/data-table.tsx:57-58 | without a description only the name is searched |
| ProductsTable.EmptyQueryFindsEveryProduct | components/products-table/data-table.tsx:54-60 | the empty query matches every product |
| ProductsTable.FilteredProducts | components/products-table/data-table.tsx:54-60 | each product kept, with its multiplicity in the data, exactly when it matches a non-empty query; all of them for an empty one |
| ProductsTable.FilteredProductsAppend | components/products-table/data-table.tsx:54-60 | filtering a + b is filtering a then b, so the order of the products kept is the data's order |
| ProductsTable.Footer | components/products-table/data-table.tsx:152-156 | the footer starts with the number of matching products, in digits, then a space |
| ProductsTable.EmptySearchKeepsAll | components/products-table/data-table.tsx:152 | with no query every product is counted |
| ProductsTable.ProductsDataTable.RequestDelete | components/products-table/data-table.tsx:132 | the row's product becomes the target and the dialog opens |
| ProductsTable.ProductsDataTable.OnOpenChange | components/products-table/data-table.tsx:180-189 | closing the dialog forgets the target |
| ProductsTable.ProductsDataTable.HandleDelete | components/products-table/data-table.tsx:65-74 | no target: nothing; otherwise that product is deleted, the target cleared only on success, a failure escapes; not deleting afterwards |

## Left out

- Sessions, the database and the object store are not modelled. The session is a parameter, the
  tables are maps, and `presign` and `deleteFile` are parameters. `revalidatePath`, `router.refresh`
  and `router.push` are not modelled.
- `parseFloat`, `toISOString`, the locale date format and the fr-FR currency format are library
  calls. They are parameters, or the decimal text is kept as it is (`ProductsColumns.Detail`).
- `toLowerCase` and `toUpperCase` are modelled on ASCII letters only. Unicode case mapping is not
  modelled.
- A rejection that is not an `Error` instance shows "Une erreur est survenue". The model's
  `Outcome.Fail` always carries a message, so that fallback is not modelled.
- ContactDetail.ContactDetailForm.HandleAddNote and HandleLoadMore: a rejection escapes these
  handlers. The model keeps the state they leave but does not report the escaping error.
- ContactDocuments.DocumentList.HandleFileChange: the model assumes a successful upload reply holds
  the new document. Clearing the file input through its ref is DOM work and is not modelled.
- The table library is not modelled. Sorting, pagination and the page count are inputs. The global
  filter function runs once per searchable column with the same answer each time; this is collapsed
  into one test per row. No search runs for an empty query.
- FilteredRows: it uses the corrected, null-safe search `ContactMatches`, not the search as written.
  The written search throws on a null first name, and on a null last name when the first name does
  not match. On every row that has both names the two searches agree (`ContactMatchesAsWritten`).
- CreateContact, CreateProduct: the id the database assigns is a parameter, and is assumed not to be
  the key of an existing row.
- The browser's `required` checks on the form inputs run before the handlers. They are not modelled.
- The contact type and status fields of the forms are not modelled. The server action shown stores
  neither.
- `updateContact`, `deleteContact`, `addContactNote`, `loadMoreContactEvents` and the upload route
  are not part of this model. Each appears only as the outcome of its call.
- Rendering, styling and icons are left out. The one exception is the image-or-document icon choice.

## Findings

| source | as written | input that shows it | evidently intended | confidence | as-written member | corrected member |
|---|---|---|---|---|---|---|
| app/actions/contacts.ts:23 | the server refuses a contact unless both names are non-empty, even when a company is given | names "", company "Acme": the sheet at components/create-contact-sheet.tsx:36 lets it through and the server throws "Le prénom et le nom sont requis" | the server accepts a first and last name or else a company, as the sheet does | high (not executed) | CreateContactSheet.CompanyOnlyRefused | CreateContactSheet.SheetAgreesWithIntended |
| components/contacts-table/data-table.tsx:64-65 | the search calls `toLowerCase` on `firstName` and `lastName` without a null check, although the row type declares them nullable | a contact whose `firstName` is null (a company-only contact) with any non-empty query: the filter throws. The only page shown that fills this table loads `getAllContacts("INDIVIDUAL")` (app/contacts/individuals/page.tsx:21); whether a company-only contact reaches it depends on the contact type the store gives it, which is not part of this model | a null name never matches, as the null-checked email and company do | medium (not executed) | ContactsTable.IntendedCompanyOnlyContactBreaksSearch | ContactsTable.ContactMatches |
