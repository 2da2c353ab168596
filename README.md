# Gym dashboard, modelled in Dafny

This project models the core of the gym dashboard web application. The application has three parts:

- **Server.** An Express server with a SQLite user table and an activity log. The model covers sign-in, session check, sign-out and the activity-log listing.
- **Seeding script.** It reads the membership CSV file and creates one account per member plus an administrator.
- **React client.** Its pieces are:
  - the session context and the route guard
  - the login page
  - the analytics pages and their charts: dashboard, members, trainers, classes and drinks
  - the member table with its column choice and paging
  - the two member pages, which merge gym and fitness records
  - the check-in ring

Each source file is one Dafny module. Three further modules carry what the source gets from the language and its libraries:

- `JsValues`: JavaScript values and coercions — `String()`, `Number()`, `parseInt`, truthiness, `??`, ASCII `trim`/`toLowerCase`, `split`.
- `Seqs` and `Sorting`: filter, distinct, count, sum and a stable sort.
- `NaiveCsv`: the hand-written comma splitter used by the seeding script, the trainers page and the profile page.

The model follows the code's form:

- Loops that accumulate become methods with loop invariants, each proved equal to a fold function. The lemmas about the fold state what the source promises.
- State that the source mutates becomes a class: the database, the session, the login form, the pager and the drink chart.
- Pure computations become functions with lemmas.

A parsed CSV row is a map from column names to values, and a missing column reads as `undefined`. The CSV parsing library itself is not modelled: its output is the input. The browser, the network and the clock are likewise inputs. Hashing, bcrypt comparison and JSON encoding are function parameters.

## Model

| member | source | states |
|---|---|---|
| NaiveCsv.RecordOfShape | server/seed-users.js:21-25 | a parsed record has exactly the trimmed headers as keys, and every value is trimmed |
| NaiveCsv.RecordOfCell | server/seed-users.js:23-25 | a header holds its line's cell at the same index, trimmed, or "" when the line has fewer cells (a repeated header keeps the last one) |
| NaiveCsv.RecordsOfCount | server/seed-users.js:17-28 | blank lines give no record; every other line after the header gives exactly one, in file order, with the header keys |
| NaiveCsv.TrimIsTrimmed | server/seed-users.js:24 | a trimmed string has no white space at either end |
| Seeder.BuildRecord | server/seed-users.js:21-25 | the header loop builds the record the pure definition describes |
| Seeder.ParseCsv | server/seed-users.js:11-31 | `parseCSV` splits the content into lines; line 0 is the header; every later non-blank line becomes one record |
| Seeder.Seed | server/seed-users.js:72-135 | an empty table gets every member's insert in order, then the administrator's when there was a member; a non-empty table is left alone; a UNIQUE failure is counted as neither created nor an error; the activity log is untouched |
| Seeder.SeedMember | server/seed-users.js:84-104 | one turn of the loop changes the table, the next id and the created count exactly as one step of the insert fold does, and leaves both logs alone |
| Seeder.InsertMembersMeaning | server/seed-users.js:84-104 | existing accounts are kept; every new account is a `user_<id>` account with the `user` role and the hash of `pass_<id>`; every member's name is present afterwards; the created count equals the accounts added |
| Seeder.InsertMemberMeaning | server/seed-users.js:85-104 | one insert keeps every existing account, adds nothing but the member's own `user_<id>` account, leaves that name present, and counts and numbers exactly what it adds |
| Seeder.AdminIsNoMember | server/seed-users.js:86-112 | no member name `user_…` equals `admin`, so the administrator's insert is never refused by a member |
| Seeder.SeededMeaning | server/seed-users.js:78-135 | after seeding an empty table: every member has an account; the administrator exists exactly when there was a member, with the `admin` role, no member id and the hash of `admin456`; every other account is a member account |
| Seeder.CreatedBound | server/seed-users.js:93-104 | the created count grows by at most one per member |
| Seeder.SeedIdempotent | server/seed-users.js:72-140 | running the script a second time changes nothing and creates nothing |
| Seeder.SeededMemberCanLogIn | server/seed-users.js:85-92 | a seeded member signs in with `user_<id>` and `pass_<id>`, given that bcrypt accepts a password against its own hash |
| Server.Public | server/server.js:166-171 | the user sent to the client carries the id, name, role and member id, and not the hash |
| Server.LoginMeaning | server/server.js:137-177 | a missing field gives 400 and logs nothing; an unknown user and a wrong password give the same 401 message but log different reasons; success happens exactly for a known user whose password is text that matches, returns that user without the hash and logs the role; a failed request returns no user |
| Server.Newest | server/server.js:216 | the last n entries of the log, newest first |
| Server.Database.constructor | server/server.js:65-90 | an empty user table and empty logs |
| Server.Database.LogActivity | server/server.js:110-132 | the log file always gets the entry; the table gets it only for a username that is not null, because that column is NOT NULL |
| Server.Database.InsertUser | server/seed-users.js:90-92 | an insert is refused exactly when the username is taken; otherwise the user is stored under the next id |
| Server.Database.Login | server/server.js:137-177 | the reply is the login outcome; the log grows by exactly the entry the outcome names; the users are unchanged |
| Server.Database.CheckAuth | server/server.js:180-199 | authenticated exactly when a truthy username is known, and then the stored name is returned |
| Server.Database.Logout | server/server.js:202-211 | always succeeds, known user or not, and logs "Logged out" |
| Server.Database.ActivityLogs | server/server.js:214-222 | the 50 newest entries, newest first: all of them when the log holds fewer, exactly 50 otherwise, entry i being the i-th from the end |
| AuthContext.SignedIn | src/context/AuthContext.jsx:33-34 | sign-in stores the encoded user and the username under their keys and adds no other key |
| AuthContext.SignedOut | src/context/AuthContext.jsx:40-41 | sign-out removes both session entries and keeps every other one |
| AuthContext.Restored | src/context/AuthContext.jsx:11-27 | with both entries truthy, the session is authenticated exactly when the user entry is valid JSON, and then it holds the decoded user (none for a value that is no user object) and keeps storage; a malformed entry forgets both entries; otherwise nothing changes |
| AuthContext.UseAuth | src/context/AuthContext.jsx:51-57 | the context inside the provider; otherwise the error |
| AuthContext.AuthSession.constructor | src/context/AuthContext.jsx:6-8 | no user, not authenticated, loading |
| AuthContext.AuthSession.Mount | src/context/AuthContext.jsx:11-27 | the mount effect leaves the restored session, keeps the session valid, and loading is off on every path |
| AuthContext.AuthSession.Login | src/context/AuthContext.jsx:29-35 | the user is set, the session is authenticated, and both entries are stored |
| AuthContext.AuthSession.Logout | src/context/AuthContext.jsx:37-42 | no user, not authenticated, and both entries are removed |
| AuthContext.ReloadAfterLogin | src/context/AuthContext.jsx:11-35 | a reload after sign-in restores the same user, provided the encoding reads back |
| AuthContext.NonUserEntryAuthenticates | src/context/AuthContext.jsx:15-19 | a user entry such as "null", valid JSON but no user object, still authenticates the visitor, with no user, and keeps both entries |
| AuthContext.ReloadAfterLogout | src/context/AuthContext.jsx:11-42 | a reload after sign-out starts unauthenticated |
| AuthContext.EmptyUsernameNotRestored | src/context/AuthContext.jsx:13-15 | a user with an empty username is not restored, because the username entry is falsy |
| App.GuardDecision | src/App.jsx:15-38 | loading comes first, then sign-in, then the role list; an empty role list admits every signed-in user |
| App.RootRouteMeaning | src/App.jsx:87-108 | the root shows the dashboard only to an administrator and sends everyone else to the profile; there a member sees the page, an administrator is denied and a visitor is sent to sign in |
| App.RoleTableMeaning | src/App.jsx:110-164 | members are denied the three administrator pages; both roles reach the member, drinks and old member pages; nothing shows while loading |
| App.HandleLogout | src/App.jsx:47-60 | the server is told only when the user has a username and the request gets through; the local sign-out happens in every case |
| LoginPage.ReactionTo | src/pages/LoginPage.jsx:26-65 | a sign-in happens only for a successful reply whose user has the role of the chosen login, and it goes to "/" for an administrator and "/profile" otherwise |
| LoginPage.ReplyOf | src/pages/LoginPage.jsx:20-24 | a reply arrives exactly when the request is delivered, and it is the server's answer to the trimmed username with the password as typed |
| LoginPage.LoginForm.constructor | src/pages/LoginPage.jsx:7-11 | no role chosen, empty fields, no error, not loading |
| LoginPage.LoginForm.SelectRole | src/pages/LoginPage.jsx:89-98 | the chosen role is set and nothing else changes |
| LoginPage.LoginForm.HandleBack | src/pages/LoginPage.jsx:71-76 | the role, both fields and the error are cleared |
| LoginPage.LoginForm.HandleSubmit | src/pages/LoginPage.jsx:14-69 | the trimmed username and the password go to the server; on an error the message is shown and the fields and session are kept; on a sign-in the session is stored, the fields are cleared and the page navigates; loading ends on every path; both server logs grow exactly by what the sign-in logs when the request is delivered and not at all otherwise, and the accounts and next id are unchanged |
| LoginPage.LoginForm.Settle | src/pages/LoginPage.jsx:30-58 | an error reaction shows its message and keeps the fields, navigation and session; a sign-in stores the user and username, signs the session in, clears both fields and navigates to the target |
| LoginPage.ErrorMessages | src/pages/LoginPage.jsx:56-65 | a rejected reply shows the server's message, or "Login failed" when there is none; no answer and no request have their own messages |
| LoginPage.RoleCheck | src/pages/LoginPage.jsx:28-35 | a member signs in through the member login, and the administrator login refuses them with "Invalid credentials for admin login", after the server has logged a success |
| LoginPage.AdminSignIn | src/pages/LoginPage.jsx:28-54 | the administrator signs in through the administrator login and lands on the dashboard; the member login refuses them |
| FilterBar.OptionValuesMember | src/FilterBar.jsx:10-17 | an option is offered exactly when some row's value, not empty or nullish, has it as its string form |
| FilterBar.Unique | src/FilterBar.jsx:10-17 | "All" first, then every option once, in the order first seen |
| FilterBar.SetFilter | src/FilterBar.jsx:26 | the field holds the chosen option and every other filter is kept |
| FilterBar.DisplayedFilter | src/FilterBar.jsx:25 | the select shows the stored value, or "All" when that value is empty, null or missing |
| Dashboard.Available | src/pages/DashboardPage.jsx:77-80 | the declared fields present in the first row, in declared order |
| Dashboard.LoadRows | src/pages/DashboardPage.jsx:71-85 | no rows is an error naming the URL; otherwise the first 5000 rows are kept and the fields are those the first row has |
| Seqs.FilterDetermined | src/pages/DashboardPage.jsx:104-111 | a subsequence made only of passing rows and as long as the count of passing rows is exactly the filtered sequence, so the filter contracts below pin their result |
| Dashboard.FilteredDataAsWritten | src/pages/DashboardPage.jsx:104-111 | the rows, in order and with every copy, that match every filter value that is not empty or null, compared as strings; "All" counts as a value |
| Dashboard.AllOptionHidesRows | src/pages/DashboardPage.jsx:104-111 | choosing "All" for a field hides every row not literally holding "All" |
| Dashboard.AllOptionEmptiesTable | src/pages/DashboardPage.jsx:106 | picking "Male" and then "All" for gender empties a one-member table |
| Dashboard.ShownKeysSkipAll | src/pages/DashboardPage.jsx:106 | in the corrected filter, a field set to "All" is no restriction |
| Dashboard.FilteredData | src/pages/DashboardPage.jsx:104-111 | corrected: the rows, in order and with every copy, matching every chosen value other than "All" |
| Dashboard.SelectingAllClearsField | src/FilterBar.jsx:26 | choosing "All" lifts that field's restriction and keeps every other one |
| Dashboard.MembershipField | src/pages/DashboardPage.jsx:151 | the first row decides: `abonement_type` when truthy there, else `abonoment_type` when truthy there, else no column (also without rows) |
| Dashboard.RoundedPercent | src/pages/DashboardPage.jsx:159 | rounded percentage in [0, 100]: 0 for none, 100 for all |
| Dashboard.PremiumVsStandard | src/pages/DashboardPage.jsx:149-160 | 0 and 0 without a membership column; otherwise the rounded shares of rows whose lower-cased value contains "premium", and of those containing "standard" but not "premium" |
| Dashboard.VisitField | src/pages/DashboardPage.jsx:322 | the first numeric field, in list order, whose name contains "visit", else `visit_per_week` |
| Dashboard.VisitsHistogram | src/pages/DashboardPage.jsx:322 | exactly the bars "1" to "5", each counting the rows whose visit value is that number |
| Dashboard.TallyVisits | src/pages/DashboardPage.jsx:322 | the counting loop gives each finite visit value the number of rows holding it, and nothing to any other value |
| Dashboard.VisitsBarBound | src/pages/DashboardPage.jsx:322 | no bar counts more than all rows |
| StatsPanel.NumbersMember | src/StatsPanel.jsx:4-9 | a number is used exactly when some row holds it as a finite number |
| StatsPanel.CollectNumbers | src/StatsPanel.jsx:4-9 | the first loop collects exactly the finite numbers of the field, in row order |
| StatsPanel.SumMinMax | src/StatsPanel.jsx:11-21 | the sum, and extremes that are members of the numbers bounding every one |
| StatsPanel.SquaredDeviationsFrom | src/StatsPanel.jsx:25-29 | the sum of squared deviations, never negative |
| StatsPanel.SumBounds | src/StatsPanel.jsx:11-18 | n terms between lo and hi sum to between n·lo and n·hi |
| StatsPanel.MeanBetween | src/StatsPanel.jsx:23 | the mean lies between the minimum and the maximum |
| StatsPanel.SquaredDeviationsNonNegative | src/StatsPanel.jsx:25-30 | the variance is never negative |
| StatsPanel.ComputeStats | src/StatsPanel.jsx:1-34 | none exactly without a field, without an array or without a finite number; otherwise count, mean, extremes and population variance of the numbers, with min ≤ mean ≤ max |
| DataChart.LabelsCount | src/DataChart.jsx:5-13 | one label per row with a non-nullish value |
| DataChart.AggregateStep | src/DataChart.jsx:9 | one `reduce` step keeps the accumulator's keys in creation order and its counts equal to occurrences |
| DataChart.Aggregate | src/DataChart.jsx:5-13 | the accumulator's keys are the labels, each once, in first-seen order, and each count is that label's number of occurrences |
| DataChart.ObjectKeysPermutes | src/DataChart.jsx:16 | `Object.keys` lists every property once |
| DataChart.ObjectKeysOrder | src/DataChart.jsx:16 | `Object.keys` lists the array-index names first, ascending by value |
| DataChart.EntriesOf | src/DataChart.jsx:17 | one entry per key, with its count |
| DataChart.EntriesMembers | src/DataChart.jsx:16-19 | an entry is in the chart data exactly when its name is a key and its value is that key's count |
| DataChart.ChartPermutes | src/DataChart.jsx:16-18 | the bars are the entries reordered; a bar is exactly a key with its count |
| DataChart.ChartSorted | src/DataChart.jsx:18 | the bars are sorted by count, largest first |
| DataChart.ChartBars | src/DataChart.jsx:5-18 | each bar is a label with its number of occurrences, and every label has its bar |
| DataChart.ChartNamesDistinct | src/DataChart.jsx:5-18 | no two bars share a name |
| DataChart.ChartTotal | src/DataChart.jsx:5-18 | the counts add up to the number of rows with a value |
| DataChart.ChartEmpty | src/DataChart.jsx:16-20 | there are no bars exactly when there are no labels |
| DataChart.ChartForRows | src/DataChart.jsx:3-22 | "no data" exactly when no field is selected or no row has a value for it; otherwise the bars add up to the rows with a value |
| ClassesChart.LabelsMatchKeys | src/ClassesChart.jsx:28-54 | eleven classes, each label its column name without `Group_Lesson_` |
| ClassesChart.FlagCount | src/ClassesChart.jsx:57-61 | the number of rows whose column is 1, "1", true or "true" |
| ClassesChart.ClassCounts | src/ClassesChart.jsx:56-62 | one count per class, none above the number of rows |
| ClassesChart.ChartAfter | src/ClassesChart.jsx:25-62 | without data the previous chart stays; otherwise the eleven labels with their counts |
| ClassesChart.CountsGrowByRow | src/ClassesChart.jsx:56-62 | one more member adds one to exactly the classes whose flag is set |
| DrinkChart.TallyCounts | src/DrinkChart.jsx:40-48 | each drink's counter is the number of members with its flag set |
| DrinkChart.CountDrinks | src/DrinkChart.jsx:31-48 | six counters, each the number of members with that drink's flag set |
| DrinkChart.CountMember | src/DrinkChart.jsx:40-46 | one member adds one to each drink whose flag it sets and leaves the other counters alone |
| DrinkChart.DrinkChartView.constructor | src/DrinkChart.jsx:23-26 | an empty chart |
| DrinkChart.DrinkChartView.Update | src/DrinkChart.jsx:28-55 | no or empty data keeps the previous chart; otherwise the six drinks with their counts |
| DrinksPage.SubscriptionOf | src/pages/DrinksPage.jsx:42 | the first of the three spellings that is not nullish |
| DrinksPage.SubscriptionValuesMember | src/pages/DrinksPage.jsx:41-44 | an option exists exactly when some row's subscription stringifies to it |
| DrinksPage.SubscriptionOptions | src/pages/DrinksPage.jsx:39-46 | "All" first, then every subscription once, in first-seen order |
| DrinksPage.FilteredData | src/pages/DrinksPage.jsx:48-52 | every row for "" or "All"; otherwise the rows, in order and with every copy, whose stringified subscription is the choice |
| DrinksPage.SubscribersCount | src/pages/DrinksPage.jsx:58 | the rows whose `drink_abo` stringifies to "1" |
| Seqs.LengthOrOne | src/pages/DrinksPage.jsx:59 | the divisor of the drinks and classes percentages: the number of rows, or 1 without rows |
| DrinksPage.SubscriptionPercentage | src/pages/DrinksPage.jsx:60 | a percentage in [0, 100]: 0 without rows, 100 when all subscribe |
| ClassesPage.TruthyTypesMember | src/pages/ClassesPage.jsx:33 | a type is listed exactly when some row has it and it is truthy |
| ClassesPage.MembershipTypes | src/pages/ClassesPage.jsx:33 | each truthy type once, not stringified, in the order of first occurrence |
| ClassesPage.FilteredData | src/pages/ClassesPage.jsx:35 | every row for "All"; otherwise the rows, in order and with every copy, whose type is exactly the chosen string |
| ClassesPage.FilterRulesDiffer | src/pages/ClassesPage.jsx:35 | a row that spells the column `abonnement_type` is kept by the drinks page's filter and dropped by this page's |
| ClassesPage.FilterRulesAgreeOnText | src/pages/ClassesPage.jsx:35 | on a row whose `abonoment_type` is text, this page's strict filter and the drinks page's stringifying filter agree |
| ClassesPage.AttendeesCount | src/pages/ClassesPage.jsx:37 | the rows whose flag is "1", "True" or "Yes" |
| ClassesPage.AttendancePercentage | src/pages/ClassesPage.jsx:39 | a percentage in [0, 100]: 0 without rows, 100 when all attend |
| MembersVisualization.FindRange | src/pages/MembersVisualizationPage.jsx:34 | the first range holding the value, or none when no range does |
| MembersVisualization.HistogramCount | src/pages/MembersVisualizationPage.jsx:29-39 | counter k is the number of rows landing in range k |
| MembersVisualization.HistogramTotal | src/pages/MembersVisualizationPage.jsx:29-39 | the counters add up to the rows that land somewhere, at most all rows |
| MembersVisualization.AgeSleepDonut | src/pages/MembersVisualizationPage.jsx:26-42 | the four age buckets in order, each with its count and average sleep (0 when empty) |
| MembersVisualization.TallyMember | src/pages/MembersVisualizationPage.jsx:29-39 | one row moves the counters and sleep totals from those of the rows before it to those of the rows up to and including it |
| MembersVisualization.AgeBucketsMeaning | src/pages/MembersVisualizationPage.jsx:19-24 | ages between the buckets (25.5) or below them (17) are dropped; 46 and above fall in "46+" |
| MembersVisualization.Enrollment | src/pages/MembersVisualizationPage.jsx:63-77 | the yes and no percentages of all members add up to 100; both are 0 without members |
| MembersVisualization.StressHistogram | src/pages/MembersVisualizationPage.jsx:79-95 | the four stress bins in order with their counts |
| MembersVisualization.StressBinsMeaning | src/pages/MembersVisualizationPage.jsx:80-85 | values in the gaps between the bins (4.95, 5.25, 5.9) are dropped |
| MembersVisualization.IndexLatest | src/pages/MembersVisualizationPage.jsx:99-105 | the index holds an id exactly when a row has it, mapped to the last such row |
| MembersVisualization.IndexByLatest | src/pages/MembersVisualizationPage.jsx:99-105 | for any key, the index holds a number exactly when some row has it as key, and then maps it to the last such row |
| MembersVisualization.BuildIndex | src/pages/MembersVisualizationPage.jsx:99-105 | the loop builds that index |
| MembersVisualization.IntensityCategory | src/pages/MembersVisualizationPage.jsx:117-122 | low, medium or high, or none |
| MembersVisualization.IntensitySample | src/pages/MembersVisualizationPage.jsx:109-122 | a member counts exactly when its id and visits are finite, a fitness row has the id, and that row's intensity is known |
| MembersVisualization.IntensityVsVisits | src/pages/MembersVisualizationPage.jsx:97-144 | one row per visits value, strictly ascending, with the low, medium and high percentages of its members |
| VisitBuckets.AddTo | src/pages/MembersVisualizationPage.jsx:128-129 | one counter and the total grow by one |
| VisitBuckets.BucketsShape | src/pages/TrainersPage.jsx:50-59 | a bucket exists exactly for each visits value seen, and its counters add up to its total, which is at least 1 |
| VisitBuckets.BucketCounts | src/pages/TrainersPage.jsx:50-59 | each counter counts the members with that visits value and category; the total counts those with that visits value |
| VisitBuckets.CollectBuckets | src/pages/TrainersPage.jsx:40-59 | the loop builds exactly the buckets of the pure definition, and its key list is the visits values in the order first seen |
| VisitBuckets.ShareOf | src/pages/TrainersPage.jsx:63-69 | each percentage is its count over `total \|\| 1`, times 100 |
| VisitBuckets.ShareSums | src/pages/TrainersPage.jsx:63-69 | a bucket's percentages add up to 100 |
| VisitBuckets.ChartFacts | src/pages/TrainersPage.jsx:62-71 | one chart row per bucket, strictly ascending by visits, each the share of its bucket |
| VisitBuckets.ShareMeaning | src/pages/MembersVisualizationPage.jsx:133-142 | a chart row's percentages, read back in terms of the rows |
| VisitBuckets.BucketChart | src/pages/MembersVisualizationPage.jsx:107-143 | the sorted chart of the buckets built from the rows describes the rows |
| TrainersPage.PtSample | src/pages/TrainersPage.jsx:41-48 | a member counts exactly when its visits are finite and above 0; it counts as "with a trainer" exactly when the trimmed, lower-cased trainer is neither empty nor "no pt" |
| TrainersPage.PtUsageByVisits | src/pages/TrainersPage.jsx:37-72 | one row per visits value, strictly ascending, with the percentages with and without a trainer |
| TrainersPage.SlotOfHour | src/pages/TrainersPage.jsx:127-132 | the four slots [8,12), [12,16), [16,20) and 20 or later; an hour before 8 or NaN has none |
| TrainersPage.SlotOf | src/pages/TrainersPage.jsx:126-127 | a record's slot, when it has one, is one of the four |
| TrainersPage.Step | src/pages/TrainersPage.jsx:113-139 | one record keeps the four workload slots |
| TrainersPage.StatsOf | src/pages/TrainersPage.jsx:112-140 | the dictionaries after the records keep the four workload slots |
| TrainersPage.ComputeTrainerStats | src/pages/TrainersPage.jsx:112-140 | the loop computes the three dictionaries of the pure definition |
| TrainersPage.CountRecord | src/pages/TrainersPage.jsx:113-138 | the loop body for one record yields exactly the three dictionaries of one step of the pure definition |
| TrainersPage.MembersFold | src/pages/TrainersPage.jsx:117-118 | `membersByTrainer` is the counting dictionary of the counted trainers |
| TrainersPage.MembersMeaning | src/pages/TrainersPage.jsx:117-118 | exactly the trainers of counted records, other than "No PT", each with its number of members |
| TrainersPage.TypesMeaning | src/pages/TrainersPage.jsx:120-124 | one entry per counted trainer, counting that trainer's members by membership type |
| TrainersPage.TypesAddUp | src/pages/TrainersPage.jsx:118-124 | per trainer, the type counts add up to the member count |
| TrainersPage.WorkloadMeaning | src/pages/TrainersPage.jsx:126-137 | each slot counts, per trainer, the members whose check-in falls in it |
| TrainersPage.WorkloadBound | src/pages/TrainersPage.jsx:126-137 | a trainer's workload over the slots never exceeds the member count |
| DataTable.InitialsShape | src/DataTable.jsx:4-8 | "?" for a falsy or blank name; otherwise the first character of the trimmed name, plus a second exactly when the name holds white space |
| DataTable.WordsCount | src/DataTable.jsx:6 | the split has a second piece exactly when the text holds white space |
| DataTable.Hue | src/DataTable.jsx:12-15 | the hue stays in [0, 360) |
| DataTable.AvatarColor | src/DataTable.jsx:10-18 | the loop computes the hue of the name's text, and the second hue is 30 degrees further round the circle |
| DataTable.TextHue | src/DataTable.jsx:12-15 | the loop computes the rolling hash of the text and the result is a hue in [0, 360) |
| DataTable.MemberHue | src/DataTable.jsx:11 | the hue of "member" is 122 |
| DataTable.FalsyNamesShareHue | src/DataTable.jsx:11 | every falsy name gets the colour of "member" |
| DataTable.PresentationFacts | src/DataTable.jsx:33-43 | each presentation column appears at most once; "name" appears, and first, exactly when the row has a name key |
| DataTable.ColumnListsFacts | src/DataTable.jsx:33-57 | the presentation and priority lists share no name, and neither holds `id` or `ID` |
| DataTable.ChooseFields | src/DataTable.jsx:27-70 | the pushes and both loops compute the pure column choice |
| DataTable.PushPresentation | src/DataTable.jsx:33-43 | the six conditional pushes |
| DataTable.PushPriority | src/DataTable.jsx:58-60 | the priority loop appends the priority columns the row has, in priority order |
| DataTable.PushFallback | src/DataTable.jsx:63-67 | the fallback loop |
| DataTable.FallbackFacts | src/DataTable.jsx:63-67 | the fallback keeps the chosen columns in front, adds only row keys other than `id`/`ID`, never twice, and stops at 8 |
| DataTable.PreferredFacts | src/DataTable.jsx:33-60 | the preferred columns are distinct, never `id`/`ID`, and "name" leads exactly when the row has a name key |
| DataTable.FieldsFacts | src/DataTable.jsx:27-70 | no columns without rows; "name" first exactly when the row has a name key; no duplicates; never `id`/`ID`; every column is a presentation column or a row key; at most 8 when the fallback ran |
| DataTable.Spaced | src/DataTable.jsx:80 | underscores become spaces |
| DataTable.Capitalised | src/DataTable.jsx:80 | the first word character of each word is upper-cased |
| DataTable.LabelForMeaning | src/DataTable.jsx:76-81 | three fixed headings; any other heading is the field with spaces for underscores and no word starting lower-case |
| DataTable.LabelForExample | src/DataTable.jsx:80 | `visit_per_week` is headed "Visit Per Week" |
| DataTable.CellValueMeaning | src/DataTable.jsx:83-90 | a cell is never nullish: the first alias with a value wins, else "" (the role column reads "Trainer" or "Member") |
| DataTable.TotalPages | src/DataTable.jsx:72 | at least one page, enough pages of 5 for every row, and no empty last page |
| DataTable.CurrentPage | src/DataTable.jsx:73 | always a valid page, and the page itself when it is one |
| DataTable.PageRows | src/DataTable.jsx:74 | at most 5 rows, and some row when there are rows |
| DataTable.PagesCover | src/DataTable.jsx:72-74 | row j is shown at position j % 5 of page j / 5 |
| DataTable.Pager.constructor | src/DataTable.jsx:22 | page 0 |
| DataTable.Pager.First | src/DataTable.jsx:201 | page 0 |
| DataTable.Pager.Prev | src/DataTable.jsx:202 | one page back, not below 0 |
| DataTable.Pager.Next | src/DataTable.jsx:203 | one page on, not past the last page |
| DataTable.Pager.Last | src/DataTable.jsx:204 | the last page |
| MemberPage.FindById | src/pages/MemberPage.jsx:29-30 | the first row whose `id` or `ID` stringifies to the route id, or none when no row does |
| MemberPage.Merge | src/pages/MemberPage.jsx:33-45 | the loop computes the merged record of the pure definition |
| MemberPage.NoHealthRow | src/pages/MemberPage.jsx:33-35 | without a health row the record is the gym row, or empty |
| MemberPage.MergeIntoEmpty | src/pages/MemberPage.jsx:36-38 | without a gym row every health value is taken as it is |
| MemberPage.NoGymRow | src/pages/MemberPage.jsx:34-44 | without a gym row the record is the health row |
| MemberPage.HealthKeyFacts | src/pages/MemberPage.jsx:41 | `health_<key>` is prefixed, and different keys get different names |
| MemberPage.MergeFromMeaning | src/pages/MemberPage.jsx:36-44 | a blank gym slot takes the health value; a differing value keeps the gym value and adds `health_<key>`; an equal value changes nothing; other keys keep their gym value |
| MemberPage.GymValuesKept | src/pages/MemberPage.jsx:32-44 | non-blank gym values survive the merge when no key starts with `health_` |
| MemberPage.PrefixedGymKeyOverwritten | src/pages/MemberPage.jsx:41-42 | a gym key that itself starts with `health_` is overwritten by a differing health value |
| CheckInOutRing.ParseTimeToMinutes | src/components/CheckInOutRing.jsx:4-11 | none for a falsy value; otherwise at most 99·60 + 99 minutes |
| CheckInOutRing.TwoDigits | src/components/CheckInOutRing.jsx:6 | two digits that read back as the number |
| CheckInOutRing.ParseTimeRoundTrip | src/components/CheckInOutRing.jsx:4-11 | "HH:MM" followed by anything reads as HH·60 + MM |
| CheckInOutRing.ParseTimeOneDigitHour | src/components/CheckInOutRing.jsx:6 | "H:MM" reads the same way |
| CheckInOutRing.ParseTimeRejects | src/components/CheckInOutRing.jsx:5-7 | "abc", "123:45", "" and null give none |
| CheckInOutRing.SessionLabelMeaning | src/components/CheckInOutRing.jsx:13-22 | the five labels follow the hour; minutes past 59 carry into the next hour; unparseable text gives "Session" |
| CheckInOutRing.Duration | src/components/CheckInOutRing.jsx:27-29 | defined exactly when both times parse and the check-out is later, and then positive and equal to the difference |
| CheckInOutRing.RingPercent | src/components/CheckInOutRing.jsx:32-33 | in [0, 100], and 0 without a duration |
| CheckInOutRing.RingPercentMeaning | src/components/CheckInOutRing.jsx:32-33 | full exactly from three hours on; a longer visit never fills less; 90 minutes fills half |
| CheckInOutRing.ShownLabel | src/components/CheckInOutRing.jsx:43 | a truthy label prop wins; otherwise the label from the check-in time |
| UserProfile.BmiCategory | src/pages/UserProfilePage.jsx:10-17 | "unknown" exactly for a missing BMI; otherwise one of the four categories |
| UserProfile.BmiCategoryLabel | src/pages/UserProfilePage.jsx:19-33 | "No BMI data" exactly for a missing BMI |
| UserProfile.BmiCategoryMonotone | src/pages/UserProfilePage.jsx:13-16 | a higher BMI never falls into a lower category |
| UserProfile.BmiCategoryThresholds | src/pages/UserProfilePage.jsx:13-16 | for every number: underweight exactly below 18.5, healthy exactly in [18.5, 25), overweight exactly in [25, 30), obese exactly from 30 |
| UserProfile.BmiCategoryOfText | src/pages/UserProfilePage.jsx:11-12 | numeric text reads as its number; null, "" and other text are unknown |
| UserProfile.BmiCategoryLabelMeaning | src/pages/UserProfilePage.jsx:19-33 | a known category is labelled with itself capitalised |
| UserProfile.Clamp | src/pages/UserProfilePage.jsx:40 | the BMI clamped into [15, 40] |
| UserProfile.BmiPercent | src/pages/UserProfilePage.jsx:35-42 | in [0, 100], and 0 for a missing BMI |
| UserProfile.BmiPercentMeaning | src/pages/UserProfilePage.jsx:35-42 | linear inside [15, 40], 0 below, 100 above, monotone; 27.5 is at 50; a missing BMI prints "0%" |
| UserProfile.TargetId | src/pages/UserProfilePage.jsx:90-98 | the route id, except for a plain user without one |
| UserProfile.TargetIdMeaning | src/pages/UserProfilePage.jsx:92-97 | a plain user without a route id sees their own member, or member 1 |
| UserProfile.AdminUsesRoute | src/pages/UserProfilePage.jsx:90-98 | an administrator sees the route's member |
| UserProfile.FindMember | src/pages/UserProfilePage.jsx:100 | the first gym row whose id stringifies as the target, or none |
| UserProfile.FindHealth | src/pages/UserProfilePage.jsx:122-126 | the first fitness record matching the target or the member's id, or none |
| UserProfile.Metric | src/pages/UserProfilePage.jsx:130-132 | null for a falsy cell, otherwise the number read from it |
| UserProfile.MetricsOf | src/pages/UserProfilePage.jsx:128-136 | all three metrics null without a record |
| UserProfile.Load | src/pages/UserProfilePage.jsx:80-136 | succeeds exactly when the fitness text has a header line, else fails with the `lines[0]` error; the member is the one found for the target and the metrics are those of the fitness row found for that target and member |
| UserProfile.MetricMeaning | src/pages/UserProfilePage.jsx:130-132 | a metric is null or a number; an empty or missing cell is null; non-numeric text gives NaN, a missing BMI |
| UserProfile.MissingIdColumnMatchesFirst | src/pages/UserProfilePage.jsx:122-126 | with no member found, a fitness file without an id column matches its first record |
| UserProfile.BadgeAgreesWithHelper | src/pages/UserProfilePage.jsx:481-489 | the badge agrees with the label helper on every metric except 0, which the badge shows as no data |
| UserProfile.MarkerLeft | src/pages/UserProfilePage.jsx:504-521 | the marker, when drawn, is in [0, 100] |
| UserProfile.MarkerMatchesPercent | src/pages/UserProfilePage.jsx:504-521 | the marker sits where the percentage helper puts it, and is drawn for every non-zero known BMI |
| UserProfile.ProfileSessionLabel | src/pages/UserProfilePage.jsx:630-638 | one of the five names |
| UserProfile.ProfileHourOfTime | src/pages/UserProfilePage.jsx:632 | the hour of "HH:MM" reads as its number |
| UserProfile.ProfileSessionMeaning | src/pages/UserProfilePage.jsx:631-637 | four named blocks start at 6, 10, 12 and 16; every other hour is "Gym Session" |
| UserProfile.ProfileLabelOverridesRing | src/pages/UserProfilePage.jsx:628-638 | the ring shows the profile's name, which differs from its own reading (07:30) |
| UserProfile.ActiveLessonsMeaning | src/pages/UserProfilePage.jsx:727-752 | a lesson is listed exactly when its column is truthy, once, in fixed order; the list is empty exactly when no lesson column is truthy |
| UserProfile.LessonsSection | src/pages/UserProfilePage.jsx:710-804 | the card is hidden exactly when `has_fav_group_lesson` is falsy; when shown, the empty message appears exactly when no lesson is ticked, otherwise one chip per ticked lesson carrying its label, in fixed order |
| UserProfile.LessonLabelsStyled | src/pages/UserProfilePage.jsx:45-57 | every chip label has a style, and the eleven labels are distinct |

## Left out

- Network, `fetch`, `axios` and `AbortController`: the CSV text, the parsed rows and whether a request was answered are inputs.
- The CSV parsing library: its rows are the input. Its type inference is approximated by the value datatype.
- Rendering, styling, SVG geometry, chart options and timers (`setTimeout`, `setLoading` ordering inside React renders) are not modelled.
- Floating point: numbers are exact reals. `toFixed`, `Math.sqrt` (the standard deviation is given as the variance) and rounding errors of divisions are not modelled.
- `String(number)` is exact for integers and prints fractions to 15 digits; the shortest round-trip and exponent forms are not modelled.
- `Number(text)` reads decimal text with an optional sign and fraction, and the `Infinity` forms. Hexadecimal and exponent forms are read as NaN.
- Only ASCII white space and ASCII case are modelled in `trim`, `split(/\s+/)` and `toLowerCase`/`toUpperCase`.
- DataTable.AvatarColor, DataTable.Initials, DataTable.InitialsShape: characters are Unicode scalar values, not UTF-16 code units. So the hash adds one code per scalar, and an initial outside the Basic Multilingual Plane is the whole character where the source takes its first surrogate.
- Counting dictionaries keyed by a number are keyed by the real value, which is what `String()` gives for finite numbers.
- DataChart.Aggregate, TrainersPage.Step, MemberPage.Merge: the `{}` accumulators are modelled as empty maps. In the source they inherit `Object.prototype`, so a label or key named `constructor`, `toString`, `valueOf` or `__proto__` starts from an inherited value rather than undefined (and `__proto__` never becomes an own key); such names are not modelled.
- Seeder.MemberIdOf: `parseInt` is read in base 10. The source passes no radix, so an id such as `0x1A` reads as 26 there and as 0 here.
- Server.Database.ActivityLogs: log rows carry no timestamp. "Newest first" is reverse insertion order, so ties within one second are not modelled.
- AuthContext.Restored: a stored user entry that decodes to a value other than a user object (`null`, a number, a string) is held as no user. The source holds the value itself, whose `role` and `username` read as undefined all the same.
- Hashing, bcrypt comparison, JSON encoding and JSON decoding are function parameters. The only bcrypt failure modelled is a password of another type than string.
- Express, CORS, the SQLite schema statements and the console output are not modelled. So are the server's start-up count of users and the health endpoint.
- The dashboard's `activeMemberships`, `avgVisits` and `avgTime` figures: they are presentation figures outside the modelled core.
- The presentation-only files (layouts, KPI cards, service cards) are not modelled.
- The dataset switcher of the dashboard page is not modelled: the dataset is a parameter.
- DataChart: bars with equal counts keep the `Object.keys` order, because the sort is stable. Integer-like labels come first, ascending; the other labels follow in first-seen order.

## Findings

| source | as written | input that shows it | evidently intended | confidence | as-written member | corrected member |
|---|---|---|---|---|---|---|
| src/FilterBar.jsx:26, src/pages/DashboardPage.jsx:106 | choosing the first option "All" stores "All" as the field's filter, and the dashboard treats it as a value to match | rows `[{gender: "Male"}]`; choose "Male", then "All": the table is empty | "All" means no restriction on that field | not executed | Dashboard.AllOptionEmptiesTable | Dashboard.SelectingAllClearsField |
