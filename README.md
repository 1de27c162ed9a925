# Job filter engine

This project models the client-side job filter of a job portal. The server
sends the whole list of job postings to the client. Two components then work
on that list with no further server round-trip:

- **The filter card** does three things:
  - It derives the facets from the job list: the distinct job types,
    locations, titles (at most ten), work modes, job levels, durations and
    experience levels, plus a list of salary buckets chosen by a four-way
    threshold rule.
  - It keeps the user's checkbox selection as a map from facet label to the
    ticked values.
  - It publishes that selection to the shared store after every change.
- **The job list** does two things:
  - It re-filters the postings whenever the job list or the selection
    changes. Selections combine as AND across facets and OR within a facet.
    Text facets match by case-insensitive substring. The salary facet reads
    numbers back out of the bucket label.
  - It shows the filtered postings ten per page, with Previous and Next
    buttons.

Modules:

- `Wrappers`: `Option`.
- `Seqs`: the subsequence relation and first occurrence.
- `Text`: the string functions JavaScript supplies and the filter uses:
  - ASCII lower-casing;
  - `includes`;
  - deleting every character other than a digit or a hyphen;
  - `split`;
  - `parseInt`.
- `JobData`: the posting, the facet kinds and labels, and the store (a class).
- `Facets`: the derivation of the filter card's facet lists.
- `Selection`: the checkbox toggle and the filter card (a class).
- `Matching`: the filter pass.
- `Paging`: pages and the job list component (a class).
- `SalaryLabels`: what each salary bucket label means to the filter pass.
- `Scenarios`: worked examples, including the stale page.

How JavaScript semantics are modelled:

- An absent field (`undefined`) is `None`.
- `filter(Boolean)` drops `None`, the empty string and the number 0.
- A `Set` keeps first-seen order, which the model writes as `Distinct`.
- `parseInt` of an empty string is NaN, modelled as `None`.
- Every comparison with `undefined` or NaN is false.

What the code does with the salary labels and the page number:

- **The labels name thousands and lakhs, but the code does not scale them.**
  The salary filter parses a bucket label by deleting everything except
  digits and hyphens, so "k" and "lakh" scale nothing. As a result:
  - "0-40k" means salaries 0 to 40. A posting paid 20000–35000 does not match
    "0-40k" (`Scenarios.SmallSalaryList`).
  - "40k-1lakh" means 40 to 1 and admits no posting whose minimum is at most
    its maximum.
- **"50lakh+" matches nothing.** It has no hyphen, so splitting it gives one
  piece, its upper bound is `undefined`, and it admits no posting.
- **The current page is not reset.** It is kept when the selection changes,
  so a narrowing selection can leave the user on a page that shows nothing
  while matches exist (`Scenarios.StalePage`).

The posting schema annotates `salaryMin` as lakh per annum. The bucket rule
compares the salaries with 40000, 100000 and 500000, and the filter compares
them with the unscaled label numbers. The model reproduces both comparisons
exactly as written.

## Model

| member | source | states |
|---|---|---|
| Text.Lower | client/src/components/Jobs/Jobs.jsx:24 | lower-casing keeps the length and maps each character to its lower-case form; no upper-case letter remains |
| Text.LowerIdempotent | client/src/components/Jobs/Jobs.jsx:24 | lower-casing twice is lower-casing once |
| Text.ContainsIff | client/src/components/Jobs/Jobs.jsx:24 | `includes` holds exactly when the needle occurs at some position of the haystack |
| Text.ContainsEmpty | client/src/components/Jobs/Jobs.jsx:24 | every string includes the empty string |
| Text.StripSpec | client/src/components/Jobs/Jobs.jsx:49 | deleting `[^\d-]` keeps only digits and hyphens, and keeps each of them as often as it occurred |
| Text.Split | client/src/components/Jobs/Jobs.jsx:50 | splitting gives at least one piece and no piece contains the separator |
| Text.SplitJoin | client/src/components/Jobs/Jobs.jsx:50 | joining the pieces with the separator gives back the string |
| Text.DigitPrefix | client/src/components/Jobs/Jobs.jsx:51 | the digits `parseInt` reads are the longest all-digit prefix |
| Text.ParseInt | client/src/components/Jobs/Jobs.jsx:51 | `parseInt` is NaN exactly when the string is empty or does not start with a digit |
| Text.DigitPrefixOfDigits | client/src/components/Jobs/Jobs.jsx:51 | on a run of digits `parseInt` reads the whole run; on a non-empty run it yields the run's decimal value |
| JobData.Rank | client/src/components/Jobs/FilterCard.jsx:67-99 | each facet kind has one place in the filter card's fixed facet order |
| JobData.RankOfOrder | client/src/components/Jobs/FilterCard.jsx:67-99 | the fixed facet order lists each kind once, at the place its rank gives |
| JobData.KindOf | client/src/components/Jobs/Jobs.jsx:21-62 | a recognised selection key is the label of the facet it selects |
| JobData.KindOfFilterType | client/src/components/Jobs/Jobs.jsx:21-59 | every facet label is recognised as its own facet, so the labels are pairwise distinct |
| JobData.JobStore.constructor | client/src/components/Jobs/Jobs.jsx:9 | the store starts with the fetched jobs and no published selection |
| Facets.Distinct | client/src/components/Jobs/FilterCard.jsx:16-18 | the set of values keeps every value of the input and only those, each once |
| Facets.DistinctFirstSeen | client/src/components/Jobs/FilterCard.jsx:16-18 | the distinct values appear in the order of their first occurrence |
| Facets.PresentIff | client/src/components/Jobs/FilterCard.jsx:17 | a value is offered exactly when some posting has it as a non-empty field |
| Facets.SalaryListsIff | client/src/components/Jobs/FilterCard.jsx:36-37 | the salary lists hold exactly the present, non-zero salaryMin and salaryMax values |
| Facets.MinOf | client/src/components/Jobs/FilterCard.jsx:40 | the overall minimum is one of the salaries and no salary is below it |
| Facets.MaxOf | client/src/components/Jobs/FilterCard.jsx:41 | the overall maximum is one of the salaries and no salary is above it |
| Facets.SalaryBucketsShape | client/src/components/Jobs/FilterCard.jsx:42-59 | the bucket list starts with "0-40k" and has one, two, three or eight labels; the short lists are prefixes of each other; the list never shrinks as the maximum grows |
| Facets.SalaryRangesPresent | client/src/components/Jobs/FilterCard.jsx:36-39 | buckets are offered exactly when some posting has a non-zero salaryMin and some posting a non-zero salaryMax |
| Facets.SalaryRangesChosen | client/src/components/Jobs/FilterCard.jsx:39-60 | the buckets are those the threshold rule picks for the smallest non-zero salaryMin and the largest non-zero salaryMax |
| Facets.TextFacet | client/src/components/Jobs/FilterCard.jsx:16-33 | a text facet offers exactly the present values of its field, without repeats, in first-seen order |
| Facets.TitleFacet | client/src/components/Jobs/FilterCard.jsx:78 | the title facet offers the first ten distinct titles in first-seen order, or all of them when there are fewer; each is a non-empty title of some posting |
| Facets.NonEmpty | client/src/components/Jobs/FilterCard.jsx:100 | a facet is kept exactly when its value list is not empty |
| Facets.NonEmptyOrdered | client/src/components/Jobs/FilterCard.jsx:100 | dropping empty facets keeps the order of the rest |
| Facets.ComputeFacetsEmpty | client/src/components/Jobs/FilterCard.jsx:14 | no jobs means no facets |
| Facets.ComputeFacetsValues | client/src/components/Jobs/FilterCard.jsx:13-101 | every facet shown has a non-empty value list, and that list is the one derived for its kind |
| Facets.ComputeFacetsOrdered | client/src/components/Jobs/FilterCard.jsx:67-100 | the facets shown follow the fixed order |
| Facets.ComputeFacetsPresence | client/src/components/Jobs/FilterCard.jsx:13-101 | a facet is shown exactly when there are jobs and it has at least one value |
| Selection.RemoveAll | client/src/components/Jobs/FilterCard.jsx:121 | unticking removes every occurrence of the value and keeps the other values, in order and as often as before |
| Selection.Toggle | client/src/components/Jobs/FilterCard.jsx:110-125 | ticking appends the value to the facet's list; unticking removes it; other facets are unchanged; the facet's key is present afterwards |
| Selection.ToggleRoundTrip | client/src/components/Jobs/FilterCard.jsx:110-125 | ticking a value not yet ticked and then unticking it restores the facet's list |
| Selection.ToggleCheckTwice | client/src/components/Jobs/FilterCard.jsx:116 | ticking the same value twice records it twice |
| Selection.FilterCard.constructor | client/src/components/Jobs/FilterCard.jsx:127-129 | on mount the selection is empty and the empty selection is published |
| Selection.FilterCard.HandleCheckboxChange | client/src/components/Jobs/FilterCard.jsx:110-129 | the selection becomes the toggled selection and the store holds it afterwards; the job list is untouched |
| Matching.FilterSeqSpec | client/src/components/Jobs/Jobs.jsx:16-64 | the filtered list is an order-preserving subsequence holding only matching postings, each as often as in the input |
| Matching.FilterSeqAppend | client/src/components/Jobs/Jobs.jsx:16 | filtering a concatenation filters each part |
| Matching.FilterSeqNone | client/src/components/Jobs/Jobs.jsx:16 | when nothing matches, the result is empty |
| Matching.FilterSeqAll | client/src/components/Jobs/Jobs.jsx:16 | when everything matches, the list is kept as is |
| Matching.FilterJobsInactive | client/src/components/Jobs/Jobs.jsx:15-19 | an absent selection, one without keys, or one whose lists are all empty or whose keys are unknown leaves the list unchanged |
| Matching.FilterJobsSpec | client/src/components/Jobs/Jobs.jsx:14-69 | a posting is kept exactly when every active facet has a selected value matching it; order and multiplicity are kept |
| Matching.MissingFieldNeverMatches | client/src/components/Jobs/Jobs.jsx:24 | a posting without the facet's field never passes a non-empty selection for that facet |
| Matching.TextMatchesIff | client/src/components/Jobs/Jobs.jsx:23-25 | a text value matches exactly when its lower-cased form occurs in the lower-cased field |
| Matching.TextMatchesCaseInsensitive | client/src/components/Jobs/Jobs.jsx:24 | values that lower-case alike match the same postings |
| Matching.OwnValueMatches | client/src/components/Jobs/Jobs.jsx:24 | a posting matches its own field value and every substring of it |
| Matching.SalaryWithoutHyphenNeverMatches | client/src/components/Jobs/Jobs.jsx:47-53 | a bucket without a hyphen has no upper bound and matches no posting |
| Matching.SalaryMissingNeverMatches | client/src/components/Jobs/Jobs.jsx:52 | a posting missing either salary matches no bucket |
| Matching.SalaryMatchesIff | client/src/components/Jobs/Jobs.jsx:52 | a bucket with two bounds admits exactly the postings whose salary range lies inside them |
| Matching.SalaryBoundsOfRange | client/src/components/Jobs/Jobs.jsx:48-51 | a label of the form number-unit-hyphen-number-unit has exactly the two numbers as bounds; the unit words are ignored |
| Matching.SalaryBoundsOfOpen | client/src/components/Jobs/Jobs.jsx:48-51 | a label with one number and no hyphen has that number as lower bound and no upper bound |
| Paging.PageSliceSpec | client/src/components/Jobs/Jobs.jsx:71-73 | a page holds at most ten jobs: those from position (page-1)*10 on, as many as remain |
| Paging.FirstPage | client/src/components/Jobs/Jobs.jsx:71-73 | page 1 is the first ten jobs, or all of them when there are fewer |
| Paging.EveryJobOnItsPage | client/src/components/Jobs/Jobs.jsx:71-73 | job i is shown on page i/10+1, at place i%10, and on no other page |
| Paging.JobsView.constructor | client/src/components/Jobs/Jobs.jsx:10-11 | the list starts empty on page 1 |
| Paging.JobsView.Refresh | client/src/components/Jobs/Jobs.jsx:14-69 | the filtered list is recomputed from the store and the page number is kept |
| Paging.JobsView.ClickPrevious | client/src/components/Jobs/Jobs.jsx:104-110 | Previous moves back one page only when the buttons are shown and the page is not 1; the page stays at least 1 and in range |
| Paging.JobsView.ClickNext | client/src/components/Jobs/Jobs.jsx:111-116 | Next moves on one page only when the buttons are shown and the page's last index is inside the list; a page reached this way is never empty |
| Paging.JobsView.InRangePageNotEmpty | client/src/components/Jobs/Jobs.jsx:71-73 | a page in range of a non-empty list shows jobs |
| Paging.StalePageEmpty | client/src/components/Jobs/Jobs.jsx:71-73 | a page past the end of a non-empty filtered list shows nothing |
| SalaryLabels.TwoDigits | client/src/components/Jobs/Jobs.jsx:51 | a two-digit numeral parses to its decimal value |
| SalaryLabels.BoundsUpTo40k | client/src/components/Jobs/Jobs.jsx:48-51 | "0-40k" is read back as the bounds 0 and 40 |
| SalaryLabels.Bounds40kTo1Lakh | client/src/components/Jobs/Jobs.jsx:48-51 | "40k-1lakh" is read back as the bounds 40 and 1 |
| SalaryLabels.Bounds1To5Lakh | client/src/components/Jobs/Jobs.jsx:48-51 | "1lakh-5lakh" is read back as the bounds 1 and 5 |
| SalaryLabels.Bounds1To10Lakh | client/src/components/Jobs/Jobs.jsx:48-51 | "1-10lakh" is read back as the bounds 1 and 10 |
| SalaryLabels.Bounds10To20Lakh | client/src/components/Jobs/Jobs.jsx:48-51 | "10-20lakh" is read back as the bounds 10 and 20 |
| SalaryLabels.Bounds20To30Lakh | client/src/components/Jobs/Jobs.jsx:48-51 | "20-30lakh" is read back as the bounds 20 and 30 |
| SalaryLabels.Bounds30To40Lakh | client/src/components/Jobs/Jobs.jsx:48-51 | "30-40lakh" is read back as the bounds 30 and 40 |
| SalaryLabels.Bounds40To50Lakh | client/src/components/Jobs/Jobs.jsx:48-51 | "40-50lakh" is read back as the bounds 40 and 50 |
| SalaryLabels.BoundsFrom50Lakh | client/src/components/Jobs/Jobs.jsx:48-51 | "50lakh+" is read back as the lower bound 50 and no upper bound |
| SalaryLabels.FirstBucketUnscaled | client/src/components/Jobs/Jobs.jsx:47-53 | "0-40k" admits exactly the postings whose salaries lie between 0 and 40 |
| SalaryLabels.SecondBucketUnsatisfiable | client/src/components/Jobs/Jobs.jsx:47-53 | "40k-1lakh" admits no posting whose minimum is at most its maximum |
| SalaryLabels.OpenBucketNeverMatches | client/src/components/Jobs/Jobs.jsx:47-53 | "50lakh+" admits no posting |
| SalaryLabels.LowLabelsUpperBound | client/src/components/Jobs/FilterCard.jsx:50-53 | the first four labels of the full list have upper bounds of at most 40 |
| SalaryLabels.HighLabelsUpperBound | client/src/components/Jobs/FilterCard.jsx:54-57 | the last four labels of the full list have upper bounds of at most 50, or none |
| SalaryLabels.BucketUpperBoundAtMostFifty | client/src/components/Jobs/FilterCard.jsx:43-58 | every label the bucket rule can produce has an upper bound of at most 50, or none |
| SalaryLabels.OfferedBucketsCapAtFifty | client/src/components/Jobs/FilterCard.jsx:42-59 | a posting whose salaryMax exceeds 50 matches no offered bucket, whatever the job list |
| Scenarios.WorkModeMatches | client/src/components/Jobs/Jobs.jsx:34-37 | a posting passes a one-value work-mode selection exactly when its work mode matches that value |
| Scenarios.OwnWorkModeMatches | client/src/components/Jobs/Jobs.jsx:34-37 | a posting whose work mode is the selected value passes the selection |
| Scenarios.WorkModeSelection | client/src/components/Jobs/Jobs.jsx:14-69 | filtering [Dev with the work mode, QA with a work mode that does not match or none] by that work mode gives [Dev] |
| Scenarios.RemoteDeveloperOnly | client/src/components/Jobs/Jobs.jsx:14-69 | a remote Dev and an onsite QA, filtered by "Remote", give [Dev] |
| Scenarios.OneRemoteAmongTen | client/src/components/Jobs/Jobs.jsx:16-64 | ten postings whose work mode does not match and one with it: the selection keeps only the last |
| Scenarios.SmallSalaryList | client/src/components/Jobs/FilterCard.jsx:44-45 | salaries from 20000 to 45000 give ["0-40k", "40k-1lakh"], and "0-40k" does not admit a posting paid 20000–35000 |
| Scenarios.FifteenJobs | client/src/components/Jobs/Jobs.jsx:71-116 | fifteen jobs: page 1 is the first ten, page 2 the last five, page 3 is empty; on page 2 the last index, 20, is past the list, so Next is disabled |
| Scenarios.StalePage | client/src/components/Jobs/Jobs.jsx:71-116 | after moving to page 2 and then ticking a work mode that one posting has, one posting matches and the page shows none |

## Left out

- Rendering is not modelled: the accordion open/close state, the JSX markup and the animation. None of them affects the selection or the filtered list.
- Selection.FilterCard.HandleCheckboxChange: takes `checked` as a free argument. In the interface, each checkbox displays whether its value is in the selection, and a click passes the flipped state. So the interface only ticks an unticked value and only unticks a ticked one. The model covers every event sequence the interface produces, and also some it cannot, such as the double tick of `Selection.ToggleCheckTwice`.
- Fetching the job list from the server is not modelled. The store's job list is a parameter of the store's constructor.
- Text.Lower: lower-cases ASCII letters only. The source's `toLowerCase` applies full Unicode case mapping.
- Salaries are integers or absent. Fractional salaries are not modelled. A salary that is `null` is not modelled either; JavaScript would treat it as 0 in `>=`.
- Text.ParseInt: reads leading digits only. Leading whitespace and a sign are not accepted. They cannot occur, because the label has already had every non-digit, non-hyphen character deleted.
- JobData.JobStore: the published selection is either absent or a map from label to list. A selection of any other shape is not modelled, and neither is a key whose value is missing.
- Facets.MinOf: modelled without the engine's limit on the number of arguments `Math.min(...)` and `Math.max(...)` accept.
