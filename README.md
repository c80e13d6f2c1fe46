# Maternal health portal — a verified Dafny model of its core

The portal is a React single-page application over a Firebase Realtime
Database. Patients register, log in, record diet, exercise and appointment
plans, browse hospitals and leave reviews, and chat with hospitals; hospital
staff browse patient records and answer reviews. This project models the
parts of the components whose behaviour can be stated precisely:

- **Chat** (`ChatBot`): which chats a user sees, the auto-selected chat, the
  message view, sending a message (message push, then a whole-record
  overwrite of the chat with a last-message summary) and find-or-create of a
  chat with a hospital.
- **List screens** (`HospitalReviews`, `PatientRecords`, `Hospitals`, `Stars`):
  search, status filter, the "recent" cap, sort options, statistics, the
  latest-entry and newest-first helpers, reply drafts and replies, the
  review form, and the star icons.
- **Forms** (`Register`, `Login`, `DietPlan`, `MedicalAppointments`,
  `ExercisePlan`): each validator's `errors` object (a record with one
  optional message per checked field) holds a message exactly for each
  failed check, and the form is accepted exactly when it holds none. Each
  write happens only for a valid form. Passwords are stored as `btoa(password)` (`Base64`), and
  because that encoding is one-to-one, login succeeds exactly when the
  typed password is the registered one.

The database is a set of Dafny maps held by the component classes (or by
`ChatBot.ChatStore`). `push` is `Keys.FreshKey`, a key not yet in the map;
`set` replaces a whole record. A snapshot read through `Object.keys`,
`Object.values` or `Object.entries` is a sequence of `(key, record)` pairs,
tied to its map by `Lists.Enumerates` where a lemma needs it. Server
timestamps and `Date.now()` are a parameter `now`. A write or read that
throws is a boolean parameter (`writeOk`, `readOk`, …). The session cookie
is an `Option` holding the signed-in user's phone; a missing cookie makes
`JSON.parse` throw, which the handlers catch. JavaScript numbers are Dafny
`real` (ratings) or `int` (timestamps). A `type="number"` input is
`Forms.NumInput`: empty or a number.

Helper modules: `Wrappers` (Option), `Text` (`trim`, ASCII `toLowerCase`,
`includes`, the validation regexes, `localeCompare` as lexicographic order,
`parseInt(s) || 0`), `Lists` (`filter`, `slice`, a stable insertion sort,
snapshot listings), `Keys`, `Stars`, `Base64`, `Forms`.

## Model

| member | source | states |
|---|---|---|
| ChatBot.VisibleChats | src/components/ChatBot.js:54-64 | every listed chat carries an id and involves the user as `userId` or `hospitalId` |
| ChatBot.VisibleChatsInOrder | src/components/ChatBot.js:54-64 | the chat list follows snapshot order: the list of a concatenation is the concatenation of the lists, and one entry yields itself exactly when it involves the user |
| ChatBot.FirstVisibleChat | src/components/ChatBot.js:54-64 | the first snapshot entry that involves the user heads the chat list |
| ChatBot.VisibleChatsOfTable | src/components/ChatBot.js:54-64 | over a snapshot of the chat table, the list holds exactly the stored chats involving the user, each under its own key as `id` |
| ChatBot.AutoSelect | src/components/ChatBot.js:69-72 | a non-empty list selects its first chat when the listener saw no active chat; otherwise the active chat stays |
| ChatBot.ChatBot.FetchChats | src/components/ChatBot.js:47-52 | registering the listener captures the active chat of that moment, which the listener keeps seeing |
| ChatBot.ChatBot.OnChatsSnapshot | src/components/ChatBot.js:52-76 | the chat list becomes the visible chats, the active chat follows the auto-selection rule, loading ends |
| ChatBot.ChatBot.OnChatsSnapshotKeepingPick | src/components/ChatBot.js:69-72 | the intended listener: a selected chat stays selected; with none, the first listed chat |
| ChatBot.ChatBot.SelectChat | src/components/ChatBot.js:261 | clicking a listed chat makes it active |
| ChatBot.PickLostOnSnapshot | src/components/ChatBot.js:27-31 | after mount, a picked chat is replaced by the first listed chat at the next snapshot of the chat table |
| ChatBot.PickKeptOnSnapshot | src/components/ChatBot.js:27-31 | with the intended listener, the picked chat is still active after the next snapshot |
| ChatBot.MessageViewOrdered | src/components/ChatBot.js:110-113 | the message view is a permutation of the log in ascending timestamp order, empty exactly when the log is |
| ChatBot.ChatBot.OnMessagesSnapshot | src/components/ChatBot.js:107-117 | the shown messages become the sorted view of the snapshot |
| ChatBot.ChatBot.SetMessageInput | src/components/ChatBot.js:407 | the input box holds the typed text |
| ChatBot.ChatBot.SelectHospital | src/components/ChatBot.js:462 | the dialog's hospital becomes the picked one |
| ChatBot.FindChat | src/components/ChatBot.js:158-161 | `None` exactly when no listed chat pairs the two parties in either orientation; otherwise the first pairing chat |
| ChatBot.NewChat | src/components/ChatBot.js:173-182 | ids and names by role, empty last-message fields, placeholder timestamps; the chat pairs and involves the user only for a known role or when the user is the hospital |
| ChatBot.RolelessChatInvisible | src/components/ChatBot.js:174-177 | a chat created by a user without `userType` is not in that user's list, so the next find does not return it |
| ChatBot.Summary | src/components/ChatBot.js:139-145 | the summary is the component's copy of the chat with last message, sender and a resolved timestamp |
| ChatBot.ChatBot.SendMessage | src/components/ChatBot.js:122-151 | blank input or no active chat writes nothing; otherwise one message under a fresh key of the active log, other logs unchanged, then the chat record replaced by the summary; the input clears only after both writes |
| ChatBot.ChatBot.CreateNewChat | src/components/ChatBot.js:153-195 | no hospital: nothing; a listed pairing chat becomes active and nothing is written; else exactly one new chat under a fresh key, made active, dialog closed |
| Keys.FreshKey | src/components/ChatBot.js:128 | `push` yields a key not in the map |
| Lists.Filter | src/components/HospitalReviews.js:57-69 | the result holds exactly the input elements that satisfy the predicate and is no longer than the input |
| Lists.FilterKeepsExactly | src/components/HospitalReviews.js:57-69 | a filter keeps each kept element as often as the input has it, drops the others, and keeps the order |
| Lists.SubseqTrans | src/components/HospitalReviews.js:54-69 | chained filters give a subsequence of the original list |
| Lists.FilterSplit | src/components/HospitalReviews.js:162-163 | a filter and the filter of its complement split the list between them |
| Lists.SortBy | src/components/HospitalReviews.js:72-80 | sorting is a permutation |
| Lists.InsertSorted | src/components/HospitalReviews.js:72-80 | insertion keeps a list sorted by a total preorder |
| Lists.SortBySorted | src/components/HospitalReviews.js:72-80 | the sort is ordered by its comparator |
| Lists.SortByAllTies | src/components/PatientRecords.js:132 | a comparator that reports every pair a tie leaves the list as it is (the sort is stable) |
| Lists.SortByCongruent | src/components/PatientRecords.js:122 | comparators that agree on the list's elements sort it alike |
| Lists.Take | src/components/PatientRecords.js:74 | `slice(0, n)` is the prefix of length `min(n, length)` |
| Lists.SelectTaggedMembers | src/components/PatientRecords.js:39-44 | an element of the listing is the tag of a kept entry, and every kept entry's tag is listed |
| Lists.SelectTaggedAppend | src/components/PatientRecords.js:39-44 | the listing of a concatenation is the concatenation of the listings; one entry lists its tag exactly when it is kept |
| Lists.SelectTaggedCount | src/components/PatientRecords.js:39-44 | the listing has exactly as many elements as there are positions holding a kept value |
| Lists.SelectTaggedFirst | src/components/PatientRecords.js:39-44 | the first kept entry's tag heads the listing |
| Lists.FilterAppend | src/components/HospitalReviews.js:162-163 | filtering distributes over concatenation |
| Lists.FilterCount | src/components/HospitalReviews.js:162-163 | a filter keeps exactly as many elements as there are positions satisfying the predicate |
| Lists.Values | src/components/ExercisePlan.js:48 | `Object.values` lists the records in snapshot order |
| Text.TrimStart | src/components/HospitalReviews.js:56 | trimming drops exactly the leading white space |
| Text.TrimEnd | src/components/HospitalReviews.js:56 | trimming drops exactly the trailing white space |
| Text.BlankIffAllSpace | src/components/HospitalReviews.js:56 | a string trims to empty exactly when it is all white space |
| Text.LexLeTotal | src/components/PatientRecords.js:79 | any two names are comparable |
| Text.LexLeTrans | src/components/PatientRecords.js:79 | the name order is transitive |
| Text.DigitPrefix | src/components/PatientRecords.js:83 | `parseInt` reads the longest run of digits |
| Text.ParseIntOfDigits | src/components/PatientRecords.js:83 | a string of digits parses to its decimal value |
| Stars.StarIconsInRange | src/components/HospitalReviews.js:130-149 | for ratings 0 to 5: five icons; icon `i` is full exactly when `i < floor(rating)`, half exactly when `i == floor(rating)` and the fraction is at least 0.5, empty otherwise (the hospital directory has the same function at Hospitals.js:159-178) |
| Stars.RenderStars | src/components/HospitalReviews.js:130-149 | the two push loops build exactly the specified icons |
| HospitalReviews.ApplyFiltersAndSort | src/components/HospitalReviews.js:53-83 | exactly the reviews the search and status filter keep, each as often as listed; ordered by the sort option; list order for an unknown option |
| HospitalReviews.FilterStep | src/components/HospitalReviews.js:57-69 | one filter call keeps exactly the satisfying reviews and stays a subsequence of the fetched list |
| HospitalReviews.SortReviews | src/components/HospitalReviews.js:72-80 | each option yields a permutation ordered by timestamp or rating, descending or ascending |
| HospitalReviews.CalculateStats | src/components/HospitalReviews.js:151-173 | all zero without reviews; total is the count, pending is the number of reviews without a reply and replied the number with one, pending + replied = total, the average is the mean rating |
| HospitalReviews.StatsCountsPositions | src/components/HospitalReviews.js:162-163 | pending (replied) equals the number of positions in the list holding a review without (with) a reply |
| HospitalReviews.RatingSumBounds | src/components/HospitalReviews.js:164 | ratings from 0 to 5 sum to at most five times their count |
| HospitalReviews.AverageInRange | src/components/HospitalReviews.js:164-165 | the average of ratings from 0 to 5 lies in 0 to 5 |
| HospitalReviews.StatsCount | src/components/HospitalReviews.js:162-163 | a pending (replied) review makes the pending (replied) count positive; no pending review exactly when every review has a reply |
| HospitalReviews.MarkReplied | src/components/HospitalReviews.js:108-118 | only reviews with the id get the reply and its timestamp; all others are kept |
| HospitalReviews.ReviewsPage.HandleReplyChange | src/components/HospitalReviews.js:85-90 | sets one draft, every other draft unchanged |
| HospitalReviews.ReviewsPage.SubmitReply | src/components/HospitalReviews.js:92-128 | a missing or blank draft or a failed update changes nothing; else one update sent, only that review marked, only that draft cleared |
| PatientRecords.PatientList | src/components/PatientRecords.js:39-44 | exactly the user records with `userType` `'user'`, tagged with their keys |
| PatientRecords.PatientListInOrder | src/components/PatientRecords.js:39-44 | patients are listed in snapshot order, one per patient record: concatenation and singleton laws, and the length is the number of patient records |
| PatientRecords.SearchedKeepsExactly | src/components/PatientRecords.js:62-68 | a blank term keeps all; otherwise exactly the patients whose name or email contains the term ignoring case, or whose phone contains it, as a subsequence |
| PatientRecords.Selected | src/components/PatientRecords.js:71-75 | `'recent'` keeps the first ten searched patients in order |
| PatientRecords.ApplyFiltersAndSort | src/components/PatientRecords.js:58-89 | a permutation of the searched and capped list, ordered by the sort option |
| PatientRecords.SortPatients | src/components/PatientRecords.js:78-86 | each option yields a permutation ordered by name (missing as `''`) or parsed age (missing as 0), ascending or descending |
| PatientRecords.NamesTotal | src/components/PatientRecords.js:79-81 | both name comparators are total preorders |
| PatientRecords.RoundedMean | src/components/PatientRecords.js:107 | `Math.round` of the mean: the nearest integer, halves up |
| PatientRecords.CalculateStatistics | src/components/PatientRecords.js:104-114 | total is the count; the average age is 0 without patients, else the rounded mean of parsed ages |
| PatientRecords.AgeSumBounds | src/components/PatientRecords.js:107 | ages in a range sum to between its bounds times the count |
| PatientRecords.AverageAgeInRange | src/components/PatientRecords.js:104-114 | when all ages lie in a range, so does the average |
| PatientRecords.RoundedMeanBounds | src/components/PatientRecords.js:107 | rounding a mean stays within the bounds of the values |
| PatientRecords.GetLatest | src/components/PatientRecords.js:116-144 | `None` exactly for a missing or empty collection; else one of its entries: the newest when every entry carries the sorted stamp, the first listed when none does |
| PatientRecords.HeadOfSorted | src/components/PatientRecords.js:122-123 | the head of the sort is an entry, the newest when all are stamped, the first when none is |
| PatientRecords.StampedNewestFirst | src/components/PatientRecords.js:122 | entries that all carry the stamp are sorted with stamps never increasing |
| PatientRecords.NewestFirstListsAll | src/components/PatientRecords.js:146-165 | `[]` for a missing collection; else all entries, with their keys; newest first when every entry has a `timestamp` |
| PatientRecords.LatestPlanIsOldest | src/components/PatientRecords.js:126-144 | two plans saved a minute apart, with `createdAt` and no `timestamp`: the older is returned as the latest |
| PatientRecords.GetLatestPlan | src/components/PatientRecords.js:126-144 | the intended lookup, on `createdAt`: the newest plan when every plan has one |
| PatientRecords.LatestPlanIsNewest | src/components/PatientRecords.js:126-144 | on the same two plans the intended lookup returns the newer |
| Hospitals.HospitalList | src/components/Hospitals.js:58-63 | exactly the user records with `userType` `'hospital'`, tagged with their keys |
| Hospitals.HospitalListInOrder | src/components/Hospitals.js:58-63 | hospitals are listed in snapshot order, one per hospital record: concatenation and singleton laws, and the length is the number of hospital records |
| Hospitals.SearchHospitals | src/components/Hospitals.js:37-49 | a blank term shows all; otherwise exactly the hospitals whose name, hospital name or specialization contains the term, in order |
| Hospitals.AverageRating | src/components/Hospitals.js:180-184 | 0 without reviews; the same mean as the hospital's stats, within 0 to 5 for ratings in range |
| Hospitals.HospitalsPage.HandleHospitalSelect | src/components/Hospitals.js:98-100 | the picked hospital becomes selected |
| Hospitals.HospitalsPage.HandleRatingChange | src/components/Hospitals.js:106-111 | the rating is the widget value over 20, within 0 to 5 for 0 to 100; the comment is kept |
| Hospitals.HospitalsPage.HandleReviewChange | src/components/Hospitals.js:113-118 | the comment is replaced; the rating is kept |
| Hospitals.HospitalsPage.SubmitReview | src/components/Hospitals.js:120-157 | no hospital, zero rating, blank comment, no session or a failed write change nothing; else one pending review under a fresh key below the hospital's phone, then the form resets |
| Base64.DecodeEncode | src/components/Register.js:82 | decoding the Base64 text gives back the bytes |
| Base64.EncodeInjective | src/components/Register.js:82 | different bytes encode differently |
| Base64.Btoa | src/components/Register.js:82 | `btoa` yields a value exactly for Latin-1 strings |
| Base64.BtoaInjective | src/components/Login.js:49 | two strings `btoa` accepts with equal encodings are equal |
| Forms.Check | src/components/Register.js:30-33 | one check yields its field's message exactly when it fails, and the verdict drops to false exactly on failure |
| Register.StoredRecord | src/components/Register.js:80-83 | name, age, email, phone, medical history and weight are stored as entered, the password encoded, `confirmPassword` as typed |
| Register.RegisterPage.ValidateForm | src/components/Register.js:26-72 | each of the eight errors is recorded exactly when its check fails; valid exactly when no error |
| Register.RegisterPage.HandleSubmit | src/components/Register.js:74-91 | only a valid form with a Latin-1 password and a successful write is stored, under its phone, with the encoded password |
| Login.SessionOf | src/components/Login.js:50-57 | the session holds the six copied fields |
| Login.LoginPage.ValidateForm | src/components/Login.js:20-36 | errors for a phone that is not ten digits and an empty password; valid exactly when neither |
| Login.LoginPage.HandleSubmit | src/components/Login.js:38-71 | a rejected form looks nothing up; "user not found" exactly when no record has the phone; signed in only when `btoa` of the typed password equals a matching record's, with that record's session |
| Login.LoginAfterRegister | src/components/Login.js:48-49 | against a registered record, the password check passes exactly when the typed password is the registered one |
| Login.RegisterKeepsKeyedByPhone | src/components/Register.js:79 | registration keeps every user stored under its own phone |
| DietPlan.PlanRecord | src/components/DietPlan.js:65-73 | the plan is the form with start day, end day thirty days later, and creation instant |
| DietPlan.PlanEndsThirtyDaysLater | src/components/DietPlan.js:65-66 | adding 30·24·60·60·1000 ms moves the UTC day by thirty |
| DietPlan.WithMealTime | src/components/DietPlan.js:97-105 | only the named meal's time changes |
| DietPlan.DietPlanPage.HandleTimeChange | src/components/DietPlan.js:97-105 | the form becomes the copy with that meal's time |
| DietPlan.DietPlanPage.ValidateForm | src/components/DietPlan.js:37-58 | weight, blood sugar and conditions errors exactly when their checks fail; allergies and meal times have no error key; valid exactly when no error |
| DietPlan.DietPlanPage.HandleSubmit | src/components/DietPlan.js:60-87 | only a valid form with a session and a successful write is stored, under the phone and the instant |
| MedicalAppointments.WithField | src/components/MedicalAppointments.js:127-133 | only the named field changes |
| MedicalAppointments.AppointmentsPage.HandleChange | src/components/MedicalAppointments.js:127-133 | the form becomes the copy with that field |
| MedicalAppointments.Stamped | src/components/MedicalAppointments.js:35-38 | the stored appointment is the form plus `timestamp` |
| MedicalAppointments.ListAppointments | src/components/MedicalAppointments.js:68-77 | no data gives `[]`; else each entry with its key as `id` |
| MedicalAppointments.ListingOfTable | src/components/MedicalAppointments.js:70-73 | over a snapshot, each stored key appears once with its own appointment |
| MedicalAppointments.AppointmentsPage.ValidateForm | src/components/MedicalAppointments.js:97-123 | errors for blank doctor or location and empty date or time; valid exactly when none |
| MedicalAppointments.AppointmentsPage.HandleSubmit | src/components/MedicalAppointments.js:27-56 | an invalid form, no session or a failed write change nothing; else one appointment under the phone and instant, then all four fields empty |
| ExercisePlan.FreshFormInvalid | src/components/ExercisePlan.js:71-74 | a reset form fails validation for want of an intensity, whatever its two dates |
| ExercisePlan.PlanOf | src/components/ExercisePlan.js:92-97 | the stored plan is the form plus its creation instant |
| ExercisePlan.ExercisePlanPage.FetchExerciseDetails | src/components/ExercisePlan.js:32-56 | no session: error, nothing set; else `[]` without data, or every stored plan |
| ExercisePlan.ExercisePlanPage.HandleChange | src/components/ExercisePlan.js:114-120 | only the intensity changes |
| ExercisePlan.ExercisePlanPage.ValidateForm | src/components/ExercisePlan.js:67-83 | an intensity error exactly without one, a date-range error exactly when start is not before end |
| ExercisePlan.ExercisePlanPage.ResetForm | src/components/ExercisePlan.js:122-129 | empty intensity, both dates at the instant, no errors |
| ExercisePlan.ExercisePlanPage.HandleSubmit | src/components/ExercisePlan.js:86-112 | only a valid form with a session and a successful write is stored, under the phone and instant; then the form resets |

## Findings

| source | as written | input that shows it | evidently intended | confidence | as-written member | corrected member |
|---|---|---|---|---|---|---|
| src/components/PatientRecords.js:126-144 | the latest diet and exercise plans are found by sorting on `timestamp`, a field the plan screens never write (they write `createdAt`), so every comparison is `NaN`, a tie, and the first plan in key order, the oldest, is returned | two diet plans saved under keys `1700000000000` and `1700000060000` | the newest plan by its creation time | not executed | PatientRecords.LatestPlanIsOldest | PatientRecords.GetLatestPlan |
| src/components/ChatBot.js:27-31 | the chat-table listener is registered once on mount and keeps the `activeChat` of that render, `null`, so every later snapshot selects the first listed chat again | a user with two chats clicks the second and sends a message in it; the chat record is rewritten and the first chat becomes active | select the first chat only when none is selected | not executed | ChatBot.PickLostOnSnapshot | ChatBot.ChatBot.OnChatsSnapshotKeepingPick |

## Left out

- Firebase I/O, listener registration and release, and the concurrency of
  callbacks: each snapshot callback is a method run on a snapshot parameter.
- Clocks: `serverTimestamp()`, `Date.now()` and `new Date()` are one
  parameter `now` per handler, although a handler may read the clock
  several times (the diet plan's key, `createdAt` and dates, for instance).
- Formatting: `toLocaleString`, `toISOString`, `toFixed(1)` and the JSX.
  Dates are UTC day numbers (diet plan) or milliseconds (exercise plan).
- Unicode: `toLowerCase` is ASCII; `trim` and `\s` use ASCII white space
  and U+00A0 only; `localeCompare` is order on code points; `length`
  counts characters, not UTF-16 units.
- Stars.RenderStars: ratings are exact reals, not binary floating point.
- Text.ParseIntOrZero: decimal only; `parseInt` also reads a `0x` prefix as
  hexadecimal.
- Lists.SortBy: the sort is proved a permutation and ordered; its
  stability is stated only for a comparator that reports every pair a tie
  (`Lists.SortByAllTies`).
- PatientRecords.GetLatest: when only some entries carry the stamp the
  comparator is inconsistent and the order `sort` then produces is left to
  the engine; the model gives the insertion sort's order and states only
  that the result is an entry.
- Hospitals.SearchHospitals: the model types `name`, `hospitalName` and
  `specialization` as present strings; a hospital record missing one of them
  makes the source's search filter throw, which is not modelled.
- HospitalReviews.ApplyFiltersAndSort: the model types `comment` as a
  present string; a review without one makes the source's search filter
  throw, which is not modelled.
- ExercisePlan.FreshForm: both date pickers read one instant `now`, while
  the source calls `new Date()` once for each.
- Login.LoginPage.HandleSubmit: when several records share a phone, the
  record compared is some matching record, not the first in the query's
  key order.
- The `users` table is typed twice: Forms.StoredUser, as Register writes it
  (`age` the number input's value), and PatientRecords.UserRecord, as the
  records page reads it (`age` an optional string); the model does not relate
  what Register stores to what PatientRecords parses.
- `handleChange` of Register and DietPlan (one field copied from an input
  event) and the exercise date pickers: the forms are set through their
  fields.
- `fetchReviews` in Hospitals and HospitalReviews and the hospital list of
  the chat dialog: reads already covered by the listings modelled.
- Behaviour the code does not have: chat keys derived from the pair of
  participants, monotonic server clocks, resubscription without gaps.
- Cookies, routing, App.js, Navbar.js, Home.js, Footer.js, the CRUD screens
  (HealthTracking.js, WeightManagement.js, SonographyReport.js,
  Dashboard.js, HospitalDashboard.js): they are not part of this model.
