# Review system — a Dafny model of its dashboard and review logic

The review system is a Next.js application. A business defines **services**. For each service it builds **review forms**, which are ordered lists of questions. It publishes a shareable link per form and collects **responses** from customers. A customer can ask an API route to draft three review texts from their answers with a language model. The dashboard lists, searches, sorts and filters services, forms and responses.

This project models the logic of that application in Dafny and proves properties of it:

- `questions.dfy` and `form_builder.dfy` cover the **form builder**. It keeps a `questions` state that its handlers replace: add, update by id, delete by id, and drag-and-drop move with renumbering. It parses option text. Its submit gate refuses an empty list or a blank question and hands over the list renumbered `1..n`.
- `generate_review.dfy` covers the **review-generation endpoint**:
  - it validates the request and assembles the prompt from the questions and answers;
  - it reads the model's reply as JSON, or falls back to the first three non-empty lines;
  - it maps each failure to its HTTP status.
- `service_catalog.dfy` holds the **service catalogue's search and sort**, which three components share. The search is a case-insensitive substring match on the name or description. The sort is stable, by name, by creation date (newest first), by responses or by forms; any other key keeps the order. The sort is written as an insertion sort on an array and proved equal to a functional specification.
- `stable_sort.dfy` holds that **stable sort** for any comparator: insertion one element at a time as the specification, an in-place insertion sort on an array proved to compute it, and the facts `Array.prototype.sort` promises (a permutation, in comparator order for a consistent comparator, equal elements kept in their order).
- Three modules model the components that use that search and sort:
  - `services_page.dfy`: the services page, a class whose fields are React state. An effect keeps `filteredServices` equal to the filtered and sorted services.
  - `services_client.dfy`: the server-fed services client.
  - `services_list.dfy`: the services list view.
- `forms_list.dfy`, `responses_list.dfy` and `responses_page.dfy` cover the **forms list, responses list and responses page**. Each has a chain of optional filter stages (by service or form, by search term, by status). The model proves each chain equal to one filter by the conjunction of the tests. The responses page also has lookup and display helpers.
- `home.dfy` covers the **single-page dashboard**:
  - a class holding services, forms, the selected service and the modal flags;
  - service and form create, edit and delete, including the cascade that drops a deleted service's forms;
  - toggling a form's status;
  - the per-service form count and the first six services in list order, which the page shows under a "Recent Services" heading.
- `review_actions.dfy` and `form_actions.dfy` cover the **server actions**:
  - `saveReview` validates its four form fields;
  - `createForm` validates the title and service id, parses the questions and builds the stored record;
  - `getForms` turns stored forms into plain objects whose questions all carry an `id`.
- The supporting modules:
  - `strings.dfy`: the JavaScript string operations used (`trim`, `toLowerCase`, `includes`, `split`, `join`, `slice(-n)`, string comparison);
  - `seqs.dfy`: `filter`, `map`, `slice`, `arrayMove` and `findIndex`;
  - `listing.dfy`: the shared search predicate and empty-list message;
  - `wrappers.dfy`: `Option` and a JSON value type.

Randomness (`uuidv4()`), the clock (`Date.now()`, `new Date()`), `JSON.parse`, the language-model call and the result of antd field validation are parameters of the operations that use them.

## Model

| member | source | states |
|---|---|---|
| Strings.Trim | src/components/forms/FormBuilder.tsx:225 | `trim()` returns the input with leading and trailing whitespace removed: the result occurs in the input between two blank stretches, and neither of its ends is whitespace |
| Strings.TrimEmptyIffBlank | src/components/forms/FormBuilder.tsx:225 | `!s.trim()` holds exactly when the string is all whitespace |
| Strings.Lower | src/app/dashboard/services/ServicesList.tsx:34 | lower-casing keeps the length, replaces each upper-case letter by its own lower-case letter (code point plus 32), leaves no upper-case letter, and changes no other character |
| Strings.LowerIdempotent | src/app/dashboard/services/ServicesList.tsx:34 | lower-casing twice is lower-casing once |
| Strings.ContainsIff | src/app/dashboard/services/ServicesList.tsx:34 | `includes` holds exactly when the needle occurs at some index |
| Strings.ContainsEmpty | src/app/dashboard/forms/FormsList.tsx:25-30 | every string includes the empty string |
| Strings.Split | src/components/forms/FormBuilder.tsx:123 | `split('\n')` returns at least one piece, and no piece contains the separator |
| Strings.JoinSplit | src/components/forms/FormBuilder.tsx:121-123 | joining the pieces of a split with the separator gives back the string |
| Strings.SplitJoin | src/app/api/generate-review/route.ts:18-20 | splitting a join of separator-free pieces gives back the pieces |
| Strings.TrimStart | src/app/review/actions.ts:29-31 | the leading-whitespace strip drops exactly a blank prefix, and the result does not start with whitespace |
| Strings.TrimEnd | src/app/review/actions.ts:29-31 | the trailing-whitespace strip drops exactly a blank suffix, and the result does not end with whitespace |
| Strings.SliceLast | src/app/dashboard/responses/page.tsx:37 | `slice(-n)` is a suffix of `s` whose length is the smaller of `n` and the length of `s` |
| Strings.CompareStrings | src/app/dashboard/services/ServicesList.tsx:40-41 | the name comparator returns -1, 0 or 1 |
| Strings.CompareStringsZero | src/app/dashboard/services/ServicesList.tsx:40-41 | the comparator returns 0 exactly for equal strings |
| Strings.CompareStringsFlip | src/app/dashboard/services/ServicesList.tsx:40-41 | the comparator is antisymmetric |
| Strings.CompareStringsTransitive | src/app/dashboard/services/ServicesList.tsx:40-41 | the comparator is transitive |
| Seqs.Filter | src/app/dashboard/services/page.tsx:57 | `filter` never lengthens its input |
| Seqs.FilterSpec | src/app/dashboard/services/page.tsx:57 | `filter` keeps exactly the elements passing the test, with their multiplicities, in their order |
| Seqs.FilterConcat | src/app/page.tsx:62 | filtering a concatenation filters each part |
| Seqs.FilterKeepsAll | src/app/dashboard/forms/FormsList.tsx:19-35 | a filter every element passes is the identity |
| Seqs.Count | src/app/page.tsx:157-164 | the one-by-one count is at most the length and zero exactly when no element passes |
| Seqs.FilterLength | src/app/page.tsx:157-164 | the length of a filtered list is the count of passing elements |
| Seqs.FilterFilter | src/app/dashboard/forms/FormsList.tsx:19-35 | two filters in a row equal one filter by the conjunction of their tests |
| Seqs.MapWhere | src/components/forms/FormBuilder.tsx:188-190 | `map(x => test(x) ? change(x) : x)` changes exactly the elements passing the test and keeps the length |
| Seqs.Take | src/app/page.tsx:220 | `slice(0, n)` is a prefix whose length is the smaller of `n` and the length of the list |
| Seqs.RemoveAt | src/components/forms/FormBuilder.tsx:205 | removing index `i` shifts the later elements down by one and removes one occurrence of `s[i]` |
| Seqs.Move | src/components/forms/FormBuilder.tsx:205 | `arrayMove(items, from, to)` puts `items[from]` at `to`, is a permutation, and leaves the other elements in their relative order |
| Seqs.MoveInPlace | src/components/forms/FormBuilder.tsx:205 | moving an element onto its own index changes nothing |
| Seqs.FirstIndex | src/components/forms/FormBuilder.tsx:202-203 | `findIndex` returns the first index whose key matches |
| Seqs.Find | src/app/dashboard/responses/page.tsx:18 | `find` returns `undefined` exactly when no element matches, and otherwise the element at the first matching index |
| Questions.Merge | src/components/forms/FormBuilder.tsx:189 | `{ ...q, ...updates }` takes each field present in the patch from the patch, and every other field from the question |
| Questions.MergeIdempotent | src/components/forms/FormBuilder.tsx:189 | applying the same patch twice equals applying it once |
| Questions.Unnumbered | src/components/forms/FormBuilder.tsx:207-211 | erasing the order numbers keeps the length |
| Questions.Renumber | src/components/forms/FormBuilder.tsx:233 | renumbering gives orders `1..n` and changes nothing but the order field |
| Questions.RenumberFixesDense | src/components/forms/FormBuilder.tsx:233 | renumbering leaves a list unchanged exactly when it is already numbered `1..n` |
| Questions.AddQuestion | src/components/forms/FormBuilder.tsx:176-185 | the old list is kept, and the appended question has the fresh id, type `text`, empty text, not required, no options, and order `length + 1` |
| Questions.AddKeepsDense | src/components/forms/FormBuilder.tsx:176-185 | adding to a list numbered `1..n` gives a list numbered `1..n+1` |
| Questions.UpdateById | src/components/forms/FormBuilder.tsx:187-191 | the questions with the id are merged with the patch, and every other question is unchanged |
| Questions.UpdateKeepsNumbering | src/components/forms/FormBuilder.tsx:187-191 | a patch that sets neither the id nor the order keeps every id and order, so a list numbered `1..n` stays that way |
| Questions.UpdateIdempotent | src/components/forms/FormBuilder.tsx:187-191 | repeating an update that keeps the id changes nothing |
| Questions.DeleteById | src/components/forms/FormBuilder.tsx:193-195 | exactly the questions with another id survive, in order, with their multiplicities |
| Questions.DeleteUndoesAdd | src/components/forms/FormBuilder.tsx:176-195 | deleting a just-added question with a fresh id gives back the earlier list |
| Questions.DeleteLeavesGap | src/components/forms/FormBuilder.tsx:193-195 | deleting does not renumber: deleting the first of two questions leaves one numbered 2 |
| Questions.IndexOfId | src/components/forms/FormBuilder.tsx:202-203 | the index found is the first question with that id |
| Questions.DragEnd | src/components/forms/FormBuilder.tsx:197-214 | a drop on itself changes nothing; any other drop keeps the length and numbers the result `1..n` |
| Questions.UnnumberedMove | src/components/forms/FormBuilder.tsx:205-211 | erasing orders commutes with the move |
| Questions.DragEndMoves | src/components/forms/FormBuilder.tsx:197-214 | apart from the order numbers, the result is the list with the dragged question moved to the target's index |
| Questions.ParseOptions | src/components/forms/FormBuilder.tsx:123 | the options are exactly the non-blank lines of the text, each as often as it occurs, in order |
| Questions.NotBlankLineIsTrimTest | src/components/forms/FormBuilder.tsx:123 | the option test holds exactly when `opt.trim()` is a non-empty string |
| Questions.ParsedOptionsNotBlank | src/components/forms/FormBuilder.tsx:123 | every parsed option has a non-empty trim, is not blank and contains no line break |
| Questions.OptionsRoundTrip | src/components/forms/FormBuilder.tsx:121-124 | parsing the text area shown for a list of non-blank, single-line options gives back the options, the empty list included |
| Builder.FormBuilder.constructor | src/components/forms/FormBuilder.tsx:161-174 | the builder opens on the form's questions, or on an empty list when there is no form or no questions |
| Builder.FormBuilder.AddQuestion | src/components/forms/FormBuilder.tsx:176-185 | the state becomes the appended list, and numbering `1..n` is kept |
| Builder.FormBuilder.UpdateQuestion | src/components/forms/FormBuilder.tsx:187-191 | the state becomes the updated list |
| Builder.FormBuilder.EditOptions | src/components/forms/FormBuilder.tsx:120-124 | editing the option text sets the question's options to the parsed lines |
| Builder.FormBuilder.DeleteQuestion | src/components/forms/FormBuilder.tsx:193-195 | the state becomes the list without that id |
| Builder.FormBuilder.HandleDragEnd | src/components/forms/FormBuilder.tsx:197-214 | the state becomes the moved and renumbered list, or is unchanged for a drop on itself |
| Builder.FormBuilder.HandleSubmit | src/components/forms/FormBuilder.tsx:216-238 | failed field validation, then an empty list, then a blank question each give their error, in that order. A submit happens exactly when all three checks pass, and hands over the fields and the same questions numbered `1..n` |
| GenerateReview.QaLines | src/app/api/generate-review/route.ts:18-20 | the block has two lines per question |
| GenerateReview.QaLinesAt | src/app/api/generate-review/route.ts:18-20 | line `2k` is `Q: <title k>` and line `2k+1` is `A: <answer k or ''>` |
| GenerateReview.QaBlockIsJoinOfLines | src/app/api/generate-review/route.ts:18-20 | the `qa` block is its lines joined with `\n` |
| GenerateReview.QaBlockLines | src/app/api/generate-review/route.ts:18-20 | when titles and answers have no line break, splitting the block on `\n` recovers every question and answer in order |
| GenerateReview.Prompt | src/app/api/generate-review/route.ts:22-25 | the prompt starts with exactly the fixed instructions and continues with exactly the `qa` block |
| GenerateReview.FallbackReviews | src/app/api/generate-review/route.ts:43 | the fallback holds at most three reviews, none empty, taken in order from the non-empty lines, and all of those lines when there are fewer than three |
| GenerateReview.FallbackOfEmpty | src/app/api/generate-review/route.ts:38-43 | empty content gives no reviews |
| GenerateReview.FallbackOfLines | src/app/api/generate-review/route.ts:43 | content made of non-empty lines gives its first three lines |
| GenerateReview.ReviewsField | src/app/api/generate-review/route.ts:45 | reading `data.reviews` throws exactly on `null`, and is `undefined` exactly when the value is not an object with that key |
| GenerateReview.ReviewsArray | src/app/api/generate-review/route.ts:43 | the fallback lines become a JSON array of the same strings |
| GenerateReview.Post | src/app/api/generate-review/route.ts:11-50 | an unreadable body gives 500. A missing `answers` or `questions` gives 400 before the model is called. Otherwise the model is called with the assembled prompt: a failed call gives 500, an unparsable reply gives the fallback lines, a `null` reply gives 500, and any other reply gives its `reviews` field |
| GenerateReview.EmptyReplyGivesNoReviews | src/app/api/generate-review/route.ts:38-45 | a reply without content answers with an empty review list |
| Listing.EmptyTermMatches | src/app/dashboard/forms/FormsList.tsx:25-30 | the empty search term matches every item |
| Listing.MissingDescriptionNeverMatches | src/app/dashboard/services/ServicesList.tsx:34-35 | without a description, only the title decides (`?? false`) |
| Listing.EmptyState | src/app/dashboard/forms/FormsList.tsx:37-40 | with no term the text is `No <items> created yet`; otherwise the quoted term occurs in the text |
| ServiceCatalog.KeyOf | src/app/dashboard/services/ServicesList.tsx:39-51 | a sort key other than the four known ones selects the keep-order comparator |
| ServiceCatalog.CompareFlip | src/app/dashboard/services/ServicesList.tsx:38-52 | every comparator is antisymmetric |
| ServiceCatalog.CompareTransitive | src/app/dashboard/services/ServicesList.tsx:38-52 | every comparator is transitive |
| ServiceCatalog.FilterServices | src/app/dashboard/services/ServicesList.tsx:32-36 | exactly the services whose name or description contains the term, ignoring case, are kept in order |
| ServiceCatalog.EmptyTermKeepsAll | src/app/dashboard/services/ServicesList.tsx:32-36 | an empty term keeps every service |
| ServiceCatalog.CompareByConsistent | src/app/dashboard/services/ServicesList.tsx:38-52 | each comparator of the sort selector is antisymmetric and transitive, so the sort is well defined |
| ServiceCatalog.SortedByOrdered | src/app/dashboard/services/ServicesList.tsx:38-52 | the sort's result is ordered by the comparator |
| ServiceCatalog.SortByName | src/app/dashboard/services/ServicesList.tsx:40-41 | sorting by `name` puts the names in ascending order |
| ServiceCatalog.SortByCreated | src/app/dashboard/services/ServicesList.tsx:42-44 | sorting by `created` puts newer services first |
| ServiceCatalog.SortByResponses | src/app/dashboard/services/ServicesList.tsx:45-46 | sorting by `responses` puts larger response counts first |
| ServiceCatalog.SortByForms | src/app/dashboard/services/ServicesList.tsx:47-48 | sorting by `forms` puts larger form counts first |
| ServiceCatalog.UnsortedKeepsOrder | src/app/dashboard/services/ServicesList.tsx:49-50 | with the default comparator (always 0), the stable sort keeps the order |
| ServiceCatalog.SortedByKeepsTies | src/app/dashboard/services/ServicesList.tsx:38-52 | stability: services tied under the key (same name, time or count) keep their relative order |
| ServiceCatalog.SortedByFixesOrdered | src/app/dashboard/services/ServicesList.tsx:38-52 | an already ordered list is left as it is |
| StableSort.InsertionPoint | src/app/dashboard/services/ServicesList.tsx:38-52 | a stable insertion point lies within the sorted prefix |
| StableSort.InsertionPointSplits | src/app/dashboard/services/ServicesList.tsx:38-52 | the element before the insertion point is not greater than the new one and every element from it on is greater |
| StableSort.InsertionPointUnique | src/app/dashboard/services/ServicesList.tsx:38-52 | that split determines the insertion point uniquely |
| StableSort.Insert | src/app/dashboard/services/ServicesList.tsx:38-52 | one insertion step adds one element |
| StableSort.Sorted | src/app/dashboard/services/ServicesList.tsx:38-52 | the sort keeps the length and inserts the last element into the sorted rest |
| StableSort.InsertPermutes | src/app/dashboard/services/ServicesList.tsx:38-52 | an insertion adds exactly the inserted element |
| StableSort.SortedPermutes | src/app/dashboard/services/ServicesList.tsx:38-52 | the sort is a permutation of its input |
| StableSort.InsertOrdered | src/app/dashboard/services/ServicesList.tsx:38-52 | for a consistent comparator, inserting into an ordered list keeps it ordered |
| StableSort.SortedOrdered | src/app/dashboard/services/ServicesList.tsx:38-52 | for a consistent comparator, the sort result is ordered |
| StableSort.SortedSnoc | src/app/dashboard/services/ServicesList.tsx:38-52 | sorting one more element inserts it into the sorted prefix |
| StableSort.SortedFixesOrdered | src/app/dashboard/services/ServicesList.tsx:38-52 | an already ordered list is left as it is |
| StableSort.AllEqualKeepsOrder | src/app/dashboard/services/ServicesList.tsx:38-52 | a comparator that finds every pair equal keeps every order |
| StableSort.TiesAgree | src/app/dashboard/services/ServicesList.tsx:38-52 | for a consistent comparator, two elements tied with a third are tied with each other |
| StableSort.NoTiesAfterInsertionPoint | src/app/dashboard/services/ServicesList.tsx:38-52 | no element after the insertion point is tied with the inserted element |
| StableSort.InsertKeepsTies | src/app/dashboard/services/ServicesList.tsx:38-52 | an insertion places the new element after every element it is tied with |
| StableSort.SortedKeepsTies | src/app/dashboard/services/ServicesList.tsx:38-52 | stability: for a consistent comparator, the elements tied with any given element keep their relative order |
| StableSort.InsertInPlace | src/app/dashboard/services/ServicesList.tsx:38-52 | shifting `a[i]` left in the array gives the insertion of `a[i]` into `a[..i]` and leaves the rest alone |
| StableSort.SortInPlace | src/app/dashboard/services/ServicesList.tsx:38-52 | `sort` leaves the array equal to the sort specification of its old contents |
| ServiceCatalog.VisibleServices | src/app/dashboard/services/ServicesList.tsx:31-54 | the shown list is the matching services, as a permutation, ordered by the selected key; an unknown key keeps the filtered order |
| ServicesList.Render | src/app/dashboard/services/ServicesList.tsx:31-70 | the empty view appears exactly when no service matches, with the curly-quoted message; otherwise the cards are the filtered, sorted services |
| ServicesPage.MergeValues | src/app/dashboard/services/page.tsx:69 | `{ ...s, ...values }` replaces the name and description present in the values and keeps the id, date and counts |
| ServicesPage.DeleteService | src/app/dashboard/services/page.tsx:56-59 | exactly the services with another id survive, each as often as before, in order |
| ServicesPage.EditService | src/app/dashboard/services/page.tsx:66-73 | the edited id is merged, and every other service is unchanged |
| ServicesPage.NewService | src/app/dashboard/services/page.tsx:74-85 | a new service has the given id, name, description and date, and no forms or responses |
| ServicesPage.EditKeepsIds | src/app/dashboard/services/page.tsx:66-73 | an edit keeps every id in place |
| ServicesPage.EditIdempotent | src/app/dashboard/services/page.tsx:66-73 | submitting the same edit twice equals submitting it once |
| ServicesPage.DeleteUndoesCreate | src/app/dashboard/services/page.tsx:56-85 | deleting a freshly created service restores the list |
| ServicesPage.Services.constructor | src/app/dashboard/services/page.tsx:14-44 | the mounted page has the initial services, an empty term, the `name` key and a consistent shown list |
| ServicesPage.Services.Refresh | src/app/dashboard/services/page.tsx:21-44 | the effect makes the shown list the filtered, sorted services and changes nothing else |
| ServicesPage.Services.SetSearchTerm | src/app/dashboard/services/page.tsx:18-44 | a new term re-runs the effect |
| ServicesPage.Services.SetSortBy | src/app/dashboard/services/page.tsx:19-44 | a new key re-runs the effect |
| ServicesPage.Services.HandleCreateService | src/app/dashboard/services/page.tsx:46-49 | the form opens with no service being edited |
| ServicesPage.Services.HandleEditService | src/app/dashboard/services/page.tsx:51-54 | the form opens on the service |
| ServicesPage.Services.HandleDeleteService | src/app/dashboard/services/page.tsx:56-59 | the service is removed and the shown list stays consistent |
| ServicesPage.Services.HandleServiceSubmit | src/app/dashboard/services/page.tsx:65-88 | an edit merges the values into the edited id; a create appends a new service. The form closes and the shown list stays consistent |
| ServicesClient.ServicesClient.constructor | src/app/dashboard/services/ServicesClient.tsx:18-46 | the mounted client holds the initial services, and its shown list is consistent |
| ServicesClient.ServicesClient.Refresh | src/app/dashboard/services/ServicesClient.tsx:24-46 | the effect recomputes the shown list |
| ServicesClient.ServicesClient.SetSearchTerm | src/app/dashboard/services/ServicesClient.tsx:21-46 | a new term re-runs the effect |
| ServicesClient.ServicesClient.SetSortBy | src/app/dashboard/services/ServicesClient.tsx:22-46 | a new key re-runs the effect |
| ServicesClient.ServicesClient.HandleServiceCreated | src/app/dashboard/services/ServicesClient.tsx:53-57 | the modal closes, the reloaded services replace the list, and the shown list stays consistent |
| ServicesClient.ServicesClient.EmptyText | src/app/dashboard/services/ServicesClient.tsx:104 | the empty message is the shared empty-list message with straight quotes around the term |
| FormsList.StagesAreOneFilter | src/app/dashboard/forms/FormsList.tsx:19-35 | the three filter stages in a row equal one filter by the conjunction of their tests |
| Seqs.FilterUnless | src/app/dashboard/forms/FormsList.tsx:22-33 | a filter stage skipped on its wildcard value equals the filter by its test |
| FormsList.FilterForms | src/app/dashboard/forms/FormsList.tsx:19-35 | the listed forms are one filter by the service, search and status tests |
| FormsList.ListedIff | src/app/dashboard/forms/FormsList.tsx:19-35 | a form is listed exactly when it passes all three tests, and order is kept |
| FormsList.WildcardsKeepAll | src/app/dashboard/forms/FormsList.tsx:19-35 | `all`, an empty term and `all` list every form |
| FormsList.StatusFilter | src/app/dashboard/forms/FormsList.tsx:31-33 | `active` lists the active forms and `inactive` the inactive ones |
| FormsList.Render | src/app/dashboard/forms/FormsList.tsx:19-52 | the empty view appears exactly when no form is listed, with the curly-quoted message |
| ResponsesList.FilterReviews | src/app/dashboard/responses/ResponsesList.tsx:24-38 | the shown reviews are one filter by the form and search tests |
| ResponsesList.ShownIff | src/app/dashboard/responses/ResponsesList.tsx:24-38 | a review is shown exactly when it is in the form and its name, email or review contains the term |
| ResponsesList.WildcardsKeepAll | src/app/dashboard/responses/ResponsesList.tsx:24-38 | `all` and an empty term show every review |
| ResponsesList.NumberRows | src/app/dashboard/responses/ResponsesList.tsx:45 | row `k` is numbered `k + 1` |
| ResponsesPage.GetFormTitle | src/app/dashboard/responses/page.tsx:17-20 | an unknown form, or an empty title, gives `Unknown Form`; otherwise the first matching form's title |
| ResponsesPage.GetServiceName | src/app/dashboard/responses/page.tsx:22-27 | an unknown form or service, or an empty name, gives `Unknown Service`; otherwise the name of the service of the first matching form |
| ResponsesPage.AnswerOr | src/app/dashboard/responses/page.tsx:60-61 | reading an answer with a fallback for a falsy value gives the fallback exactly when the answer is missing, empty or the fallback itself |
| ResponsesPage.DisplayId | src/app/dashboard/responses/page.tsx:37 | `#` followed by the last six characters of the id |
| ResponsesPage.FilterResponses | src/app/dashboard/responses/page.tsx:118-135 | the shown responses are one filter by the form and search tests |
| ResponsesPage.ShownIff | src/app/dashboard/responses/page.tsx:118-135 | a response is shown exactly when it is in the form and its name or email contains the term |
| ResponsesPage.AnonymousNotSearchable | src/app/dashboard/responses/page.tsx:125-132 | a response shown as `Anonymous` is never found by a non-empty term |
| ResponsesPage.NothingContainsNonEmpty | src/app/dashboard/responses/page.tsx:127-130 | the empty default contains no non-empty term |
| ResponsesPage.Responses.constructor | src/app/dashboard/responses/page.tsx:12-15 | the page mounts on all responses with form `all` and an empty term |
| ResponsesPage.Responses.SetSelectedForm | src/app/dashboard/responses/page.tsx:118-135 | choosing a form re-runs the filter effect |
| ResponsesPage.Responses.SetSearchTerm | src/app/dashboard/responses/page.tsx:118-135 | typing a term re-runs the filter effect |
| Home.MergeService | src/app/page.tsx:49 | a merged service takes the present values and the new update time, and keeps its id and creation time |
| Home.EditService | src/app/page.tsx:47-51 | exactly the services with the edited id are merged |
| Home.NewService | src/app/page.tsx:55-61 | a new service has the given name and description, and both dates set to now |
| Home.DeleteServiceCascade | src/app/page.tsx:71-75 | deleting a service removes it and exactly the forms of that service; every other service and form stays, as often as before and in order |
| Home.CascadeKeepsFormsAttached | src/app/page.tsx:71-75 | if every form belongs to an existing service before the delete, that still holds after it |
| Home.CascadeLeavesNoForms | src/app/page.tsx:71-75 | after the cascade the deleted service has no forms |
| Home.MergeForm | src/app/page.tsx:91 | a merged form takes the present title, description and questions and the new update time, and keeps the rest |
| Home.EditForm | src/app/page.tsx:89-93 | exactly the forms with the edited id are merged |
| Home.NewFormServiceId | src/app/page.tsx:106 | a new form goes to the selected service, or else to the first service, or else to `''` |
| Home.NewForm | src/app/page.tsx:104-114 | a new form is active, has the given questions or none, a link under the form prefix, and both dates set to now |
| Home.DeleteForm | src/app/page.tsx:122-125 | exactly the forms with another id survive, each as often as before, in order |
| Home.ToggleStatus | src/app/page.tsx:132-137 | exactly the forms with the id get the new status |
| Home.ToggleBack | src/app/page.tsx:132-137 | toggling a status and toggling it back restores the forms |
| Home.GetFilteredForms | src/app/page.tsx:149-154 | no selected service shows every form; otherwise exactly that service's forms, each as often as before, in order |
| Home.GetFormCount | src/app/page.tsx:157-159 | `filter(...).length` is the one-by-one count of that service's forms |
| Home.GetResponseCount | src/app/page.tsx:162-164 | `filter(...).length` is the one-by-one count of the responses to the form |
| Home.RecentServices | src/app/page.tsx:220 | at most six services, a prefix of the list, and all of them when there are at most six |
| Home.Home.constructor | src/app/page.tsx:19-33 | the dashboard opens on the initial data with nothing selected or open |
| Home.Home.HandleCreateService | src/app/page.tsx:36-39 | the service modal opens for a new service; every other field of the page stays as it was |
| Home.Home.HandleEditService | src/app/page.tsx:41-44 | the service modal opens on the service; every other field of the page stays as it was |
| Home.Home.HandleServiceSubmit | src/app/page.tsx:46-69 | an edit merges into the edited id and a create appends; the modal closes and the editing service is cleared; every other field of the page stays as it was |
| Home.Home.HandleDeleteService | src/app/page.tsx:71-75 | the cascade is applied, and forms stay attached to existing services; every other field of the page stays as it was |
| Home.Home.HandleViewServiceForms | src/app/page.tsx:77-80 | the service is selected and the forms view is shown; every other field of the page stays as it was |
| Home.Home.ClearServiceSelection | src/app/page.tsx:311 | the selection is cleared; every other field of the page stays as it was |
| Home.Home.HandleCreateForm | src/app/page.tsx:83-86 | the builder opens for a new form; every other field of the page stays as it was |
| Home.Home.HandleEditForm | src/app/page.tsx:88-91 | the builder opens on the form; every other field of the page stays as it was |
| Home.Home.HandleFormSubmit | src/app/page.tsx:93-120 | an edit merges into the edited id; a create appends a new form for the chosen service; the builder closes; every other field of the page stays as it was |
| Home.Home.HandleDeleteForm | src/app/page.tsx:122-125 | the form is removed; every other field of the page stays as it was |
| Home.Home.HandlePreviewForm | src/app/page.tsx:127-130 | the preview opens on the form; every other field of the page stays as it was |
| Home.Home.HandleToggleFormStatus | src/app/page.tsx:132-137 | the form's status is set; every other field of the page stays as it was |
| SaveReview.ContentIffNotBlank | src/app/review/actions.ts:29-31 | a field passes the `trim().length` check exactly when it is text that is not all whitespace |
| SaveReview.Save | src/app/review/actions.ts:15-45 | the review is written exactly when the form id is non-empty text and the review, name and email are non-blank text; otherwise `Invalid data` is returned and nothing is written |
| SaveReview.BlankFormIdAccepted | src/app/review/actions.ts:28 | a whitespace-only form id is accepted, because only the other three fields are trimmed |
| SaveReview.BlankReviewRefused | src/app/review/actions.ts:29 | a blank review is always refused |
| FormActions.ParseQuestions | src/app/dashboard/forms/actions.ts:62-70 | missing, non-text or blank question data gives `[]`; other text is what `JSON.parse` gives |
| FormActions.CreateForm | src/app/dashboard/forms/actions.ts:47-85 | a missing title or service id gives `Invalid data` before the questions are read; unparsable questions give `Invalid questions data`; otherwise one active record is written, with a timestamped link |
| FormActions.TitleCheckComesFirst | src/app/dashboard/forms/actions.ts:57-70 | with no title the answer is `Invalid data` even if the questions cannot be parsed |
| FormActions.NormaliseQuestion | src/app/dashboard/forms/actions.ts:31-34 | `_id` is dropped, `id` is kept unless it is null or undefined and otherwise becomes the text of `_id`, and every other key is unchanged |
| FormActions.NormaliseIdempotent | src/app/dashboard/forms/actions.ts:31-34 | normalising twice is normalising once |
| FormActions.ToDto | src/app/dashboard/forms/actions.ts:26-39 | the plain form has the stored fields, a missing description becomes `''`, and each question is normalised |
| FormActions.DtoQuestionsHaveIds | src/app/dashboard/forms/actions.ts:31-34 | every question of a plain form has an `id` and no `_id` |

## Left out

- Database access (`connectToDatabase`, `ReviewModel.create`, `ReviewFormModel.create`, the `find` with its sort in `getForms`), `revalidatePath`, `console` logging, `message` toasts and routing are left out. The server actions return the record they would write instead of writing it.
- The language-model call, `JSON.parse`, `uuidv4()` and the clock are parameters. The project does not model JSON text.
- `toLowerCase` is modelled as ASCII lower-casing, and `localeCompare` as ordinal comparison of characters. Locale-aware collation and Unicode case mapping are not modelled.
- The string-to-`Date` conversion that the list components apply to `createdAt` is not modelled. Dates are integer timestamps.
- The `over` target of a drag being `null` (a drop outside the list) is not modelled. Builder.FormBuilder.HandleDragEnd requires both ids to be in the list when they differ, as they are for drops on a sortable item.
- antd field validation is a parameter of the submit (`None` when it throws). An exception thrown by `onSubmit` itself, which the same `catch` reports, is not modelled.
- antd table pagination is not modelled. ResponsesList.NumberRows numbers the rows of one page, starting from the first row shown.
- GenerateReview.Post: the request is taken on its declared types. A non-array `questions` value, a `null` question entry and a non-object `answers` value are not modelled; in the source the first two make `.map` or `q.title` throw, which the `catch` turns into a 500. A non-string answer value, or a missing question title (which prints as `undefined`), is not modelled either.
- Home.MergeService: the dashboard's service modal also submits `googleReviewLink`, which the spread stores on the edited service. Service values here carry only the name and description, so that link is not modelled.
- ServicesPage.MergeValues: `undefined` written explicitly into a spread is modelled only for `description`. An explicit `name: undefined` is treated as an absent key.
- The mock data shipped with the pages is not modelled: mock responses that carry `answers` rather than `responses`, and mock services without counts. The pages are modelled on the declared types.
- The `This Week` response count on the responses page depends on the clock and is left out.
- The copy-link and view-responses handlers of the dashboard only touch the clipboard and show a toast, and are left out. The same goes for the `handleViewForms` navigation of the services pages.
- The services pages' `filteredServices` state starts as the unsorted initial list and is recomputed by an effect after the first render. The constructors state the page after that effect has run.
- Questions marked as locked defaults (customer name and email) do not appear in the code, so the model does not have them. The builder treats every question alike.
- A form created on the dashboard while the selected service has just been deleted keeps the deleted service's id, because the selection is not reset on delete. Home.CascadeKeepsFormsAttached states attachment only for deletes.
