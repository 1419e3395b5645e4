# Workplace reservation core, modelled in Dafny

The system books the resources of an office for whole days: single desks ("Singola"), team rooms ("Team"), meeting rooms ("Riunioni"), an event hall ("Eventi") and restaurant tables ("Ristorante"). Two tables hold its state. `Postazione` is the resource catalog: type tag, seat count (`PostiTotali`) and enabled flag. `Prenotazione` is the booking table: resource, day, owner, party size (`NumeroPersone`) and cancelled flag. Around them sit user accounts, a weekly canteen menu, notices for the staff, and reports for the admin and super-admin pages.

The model keeps the database as one object, `Db.Database`, whose fields are the tables as sequences, with the next key of each. Every service call is a method on it. The clock, GUID parsing and generation, the framework's model validation and the outcome of `SaveChanges` are parameters of that method. A refused call, or one whose save fails, leaves the tables as they were. A booking call appends its new rows. A user update or upsert overwrites one user, a deletion removes one, a menu save replaces one week, and a notice save replaces the notice table. The sections below list what each part proves; for every method, the loop it contains is proved against a function, and the properties are proved about that function.

Modules, in the order of the system's layers:

- `Wrappers`, `Text`, `Calendar` and `Occupancy` are the shared vocabulary:
  - `Wrappers` and `Text` hold option values and the .NET string operations used (trim, ASCII case folding, `Contains`, `Split`, `int.TryParse`, `D2` formatting);
  - `Calendar` holds ticks and day numbers, the proleptic Gregorian calendar, `DayOfWeek`, the Monday week start, and the ISO 8601 week date;
  - `Occupancy` holds the three ways the code measures a resource's day (people booked, active rows, all rows) and C#'s unchecked 32-bit `int` arithmetic.
- `Entities`, `Claims` and `Db` are the records with their defaults, the identity's claims, and the tables.
- `Booking` is the live cart engine. Restaurant tables share their seats; every other resource is exclusive for the day. A cart is booked all or nothing.
- The three older engines next to it:
  - `LegacyBooking`: one party size for a list of ids;
  - `Ristorazione` and `RistorazioneWeb`: the restaurant service and its controller, which count rows rather than people;
  - `SingleBooking`: the single-resource command, where any row blocks, cancelled ones included.
- `MapQueries`: the floor-map and restaurant projections, and the seed catalog built by the grid helper.
- `ClientCart` and `ClientMenu`: the browser page's cart, prices, seat statistics and menu normalisation.
- `PrenotazioneWeb`, `Orders`, `Admin`, `SuperAdmin`, `Notices` and `AuthorizeRole`: the controllers, view components and filters around the engine.
- `Users`: registration, user management, the upsert command, the queries and the password check.

### Where the code departs from its evident intent

Each point names what the code itself shows was meant (a comment, a message, a check made elsewhere in the code), then what it does. The model does what the code does.

- Accumulation within a cart. The comment at `Template/Services/Prenotazioni/PrenotazioneService.cs:56-57` says summing the people already booked solves the restaurant's seat problem. But each cart line is checked only against saved bookings, not against rows staged for earlier lines of the same cart. Two lines for one table can therefore overbook together (`Booking.DuplicateLinesOverbook`). `Booking.EngineKeepsCapacity` holds for carts that name each resource once.
- Overflow of the occupancy sum. The comment at `PrenotazioneService.cs:70` describes the test as "seats taken plus seats asked for exceed the capacity". But `occupied + requested` is an unchecked `int` addition, so a huge party wraps it negative and is admitted (`Booking.WrapAroundOverbook`, `Ristorazione.SeatWrapAround`).
- Party sizes. The restaurant service refuses a missing or non-positive seat count (`Template/Services/Ristorazione/RistorazioneService.cs:51`). The cart engine, the legacy engine and the restaurant controller take any `int`. The capacity lemmas assume positive parties.
- Cancelled rows. The cart engine and the restaurant service skip rows whose `IsCancellata` is set (`PrenotazioneService.cs:61`, `RistorazioneService.cs:96` and `:114`). The single-booking command, the floor map and the restaurant controller count them (`SingleBooking.CancelledBlocks`, `MapQueries.RedButBookable`, `RistorazioneWeb.CancelledRowsBlock`).
- Disabled resources. The floor map and the table list show only resources with `IsAbilitata` set (`Template/Services/Shared/Postazione.Queries.cs:69` and `:114`). Neither the cart engine nor the single-booking command looks at the flag, so a hidden resource can still be booked by id (`Booking.DisabledResourceBookable`).
- Capacity defaults. A missing seat count is 1 in the cart engine (`PrenotazioneService.cs:68`) and on the map. It is 4 in the restaurant service and its table list (`RistorazioneService.cs:42` and `:116`). The restaurant controller uses 4 whatever the table says (`MapQueries.ViewsDisagreeOnDefault`).
- The desk rule. The restaurant service refuses a table to a user with an active non-table booking that day. Its message reads "you already have a desk for this day, you cannot also book a table" (`RistorazioneService.cs:90-107`, `Ristorazione.DeskHolderRefused`). The controller computes the same test. Its comment states the opposite rule, "no desk, no food", and the lines that would apply it are commented out (`Template.Web/Features/Ristorazione/RistorazioneController.cs:44-57`, `RistorazioneWeb.DeskRuleNotEnforced`).
- Unknown tables in the restaurant controller. The controller never looks up the table. A request for an id with no resource, asking for at least one seat, is refused only because the foreign key from `Prenotazioni.PostazioneId` to `Postazioni.Id` makes the save fail (`Template/Migrations/20260118143318_InitialCreate.cs:84-89`, `RistorazioneWeb.WebForeignKey`).

### Modelling notes

- Stored fields. The request's note and the cart line's price are not stored on the rows the live engine creates (`PrenotazioneService.cs:88-96`).
- Cancellation. There is no cancel operation in these files. Cancellation is only the derived `Cancellabile` flag. It is true while less than one hour has elapsed, with one clock shared by all the orders of a page.
- Undeclared columns. `User.Ruolo` and `Prenotazione.Prezzo` are read by the code but not declared in the entity files shown. The model gives the records these fields.
- The two `Postazione.Queries.cs` files and the two `Postazione.Command.cs` files contain the same logic. Each pair is one model, citing whichever file states each line.

## Model

| member | source | states |
|---|---|---|
| Booking.NewRow | src/Template/Services/Prenotazioni/PrenotazioneService.cs:88-96 | the staged row has the line's resource and party size, the requested day, the caller, the UTC creation instant, is not cancelled and has no note |
| Booking.StageCart | src/Template/Services/Prenotazioni/PrenotazioneService.cs:46-99 | the loop over the cart stages exactly what the line-by-line specification stages: one row per admitted line, or the refusal of the first line that fails |
| Booking.StopPropagates | src/Template/Services/Prenotazioni/PrenotazioneService.cs:51-84 | once a prefix of the cart is refused, the whole cart is refused for the same reason (every refusal is an early return) |
| Booking.ReadyRowsReference | src/Template/Services/Prenotazioni/PrenotazioneService.cs:46-98 | every staged row names a resource found in the catalog, so the foreign key never refuses the cart |
| Booking.ReadyRowsMatchCart | src/Template/Services/Prenotazioni/PrenotazioneService.cs:46-98 | the cart is staged iff every line is admitted, and then there is exactly one row per line, in cart order |
| Booking.NotFoundNamesMissingLine | src/Template/Services/Prenotazioni/PrenotazioneService.cs:49-54 | a "not found" refusal names the id of a cart line whose resource is missing, and any such line makes the cart fail |
| Booking.RequestRefusals | src/Template/Services/Prenotazioni/PrenotazioneService.cs:31-39 | a null or empty cart is refused as empty; otherwise a day before today's UTC date is refused as past, and today is allowed |
| Booking.NeverEarlyRefusal | src/Template/Services/Prenotazioni/PrenotazioneService.cs:46-99 | the line checks never produce the empty-cart or past-day refusals |
| Booking.RestaurantAdmission | src/Template/Services/Prenotazioni/PrenotazioneService.cs:65-75 | a restaurant line is admitted iff the people already booked plus the party fit the capacity, else refused with remaining = capacity - occupied |
| Booking.ExclusiveAdmission | src/Template/Services/Prenotazioni/PrenotazioneService.cs:77-84 | any other resource is admitted iff it has no active booking that day, whatever the party size |
| Booking.ZeroBookingsZeroPeople | src/Template/Services/Prenotazioni/PrenotazioneService.cs:58-62 | a resource with no active booking that day has an occupancy sum of zero |
| Booking.DisabledResourceBookable | src/Template/Services/Prenotazioni/PrenotazioneService.cs:49-85 | the engine ignores `IsAbilitata`: flipping it does not change any line check |
| Booking.EseguiPrenotazioneMultipla | src/Template/Services/Prenotazioni/PrenotazioneService.cs:28-113 | all-or-nothing: a refusal or a failed save leaves the bookings unchanged; success appends the staged rows with fresh keys and reports the number of cart lines; no other table changes |
| Booking.EngineKeepsCapacity | src/Template/Services/Prenotazioni/PrenotazioneService.cs:58-98 | for carts naming distinct resources with parties of at least one person, and where each resource's capacity plus its party stays within int32 (no wrap-around), success keeps every table within its seats and every other resource at one active booking per day |
| Booking.DuplicateLinesOverbook | src/Template/Services/Prenotazioni/PrenotazioneService.cs:58-71 | two lines for the same four-seat table (3 and 2 people) are both admitted: each is checked against the saved rows only, so five people are booked |
| Booking.WrapAroundOverbook | src/Template/Services/Prenotazioni/PrenotazioneService.cs:71 | with one person booked, a party of 2147483647 wraps the unchecked `int` sum negative and is admitted to a four-seat table |
| Occupancy.Capacity | src/Template/Services/Prenotazioni/PrenotazioneService.cs:68 | the capacity is `PostiTotali` when positive, else 1, so it is always at least one |
| Occupancy.Add32 | src/Template/Services/Prenotazioni/PrenotazioneService.cs:71 | unchecked `int` addition: always a 32-bit value, equal to the exact sum when that fits |
| Occupancy.Sub32 | src/Template/Services/Prenotazioni/PrenotazioneService.cs:73 | unchecked `int` subtraction: always a 32-bit value, equal to the exact difference when that fits |
| Occupancy.Wrap32Add | src/Template/Services/Prenotazioni/PrenotazioneService.cs:71 | reducing an intermediate sum to 32 bits does not change the reduced final result |
| Occupancy.PeopleBookedAppend | src/Template/Services/Prenotazioni/PrenotazioneService.cs:58-62 | the occupancy sum over two tables of rows is the sum of their occupancies |
| Occupancy.ActiveCountAppend | src/Template/Services/Ristorazione/RistorazioneService.cs:110-114 | the count of active rows over two tables of rows is the sum of their counts |
| Occupancy.RowCountAppend | src/Template.Web/Features/Ristorazione/RistorazioneController.cs:60-61 | the count of rows, cancelled included, over two tables is the sum of their counts |
| Occupancy.PeopleAtLeastBookings | src/Template/Services/Prenotazioni/PrenotazioneService.cs:58-62 | when every active party has at least one person, the occupancy sum is at least the number of active bookings |
| Occupancy.PeopleEqualsBookings | src/Template/Services/Ristorazione/RistorazioneService.cs:110-114 | when every active booking is one seat (as the table service writes them), counting rows and summing party sizes agree |
| Occupancy.UnrelatedRows | src/Template/Services/Prenotazioni/PrenotazioneService.cs:58-61 | rows of other resources or other days contribute nothing to any of the three measures |
| LegacyBooking.OccupiedNames | src/Template.Web/Features/Prenotazione/PrenotazioneService.cs:36-41 | the list of names is empty iff no active booking of a requested resource falls on that day |
| LegacyBooking.OccupiedNamesMembers | src/Template.Web/Features/Prenotazione/PrenotazioneService.cs:36-41 | a name is listed iff it is the joined name of the resource of an active booking of that day for a requested id |
| LegacyBooking.Distinct | src/Template.Web/Features/Prenotazione/PrenotazioneService.cs:45 | LINQ `Distinct`: the same values, each exactly once |
| LegacyBooking.Selected | src/Template.Web/Features/Prenotazione/PrenotazioneService.cs:49-51 | the selected resources are exactly the table's resources whose id was requested |
| LegacyBooking.LegacyRow | src/Template.Web/Features/Prenotazione/PrenotazioneService.cs:66-75 | the row has the resource's id, the shared party size and note, the day and caller, local creation time, not cancelled |
| LegacyBooking.StageSelectedLoop | src/Template.Web/Features/Prenotazione/PrenotazioneService.cs:58-78 | the loop stages what the specification stages: one row per selected resource, or the first seat-count refusal |
| LegacyBooking.StagedStopPropagates | src/Template.Web/Features/Prenotazione/PrenotazioneService.cs:58-64 | a refused prefix makes the whole selection refused for the same reason |
| LegacyBooking.SelectedRowsReference | src/Template.Web/Features/Prenotazione/PrenotazioneService.cs:58-78 | every row staged for the selected resources names a resource of the catalog, so the foreign key never refuses the batch |
| LegacyBooking.StageSelectedRows | src/Template.Web/Features/Prenotazione/PrenotazioneService.cs:58-78 | staging succeeds iff the party fits every selected resource (capacity default 1), with one row per resource in order |
| LegacyBooking.EseguiPrenotazioneMultiplaLegacy | src/Template.Web/Features/Prenotazione/PrenotazioneService.cs:25-90 | all-or-nothing: any refusal or a failed save leaves the bookings unchanged; success appends the staged rows and reports the number of ids |
| LegacyBooking.SelectionComplete | src/Template.Web/Features/Prenotazione/PrenotazioneService.cs:49-56 | the lookup finds as many resources as ids were sent iff the ids are pairwise different and all exist |
| LegacyBooking.RepeatedIdRefused | src/Template.Web/Features/Prenotazione/PrenotazioneService.cs:53-56 | an id list naming a resource twice is always refused |
| LegacyBooking.LegacySuccess | src/Template.Web/Features/Prenotazione/PrenotazioneService.cs:27-78 | success implies distinct ids, every requested resource free that day, found and large enough, and one row per id with the shared party size, note and day |
| LegacyBooking.AlreadyBookedIff | src/Template.Web/Features/Prenotazione/PrenotazioneService.cs:36-47 | the "already booked" refusal happens iff a requested resource has an active booking that day; its list names, each once, exactly the resources of those bookings |
| LegacyBooking.StageNeverAlreadyBooked | src/Template.Web/Features/Prenotazione/PrenotazioneService.cs:58-64 | the only refusal the staging loop gives is the seat-count one |
| Ristorazione.TableCapacity | src/Template/Services/Ristorazione/RistorazioneService.cs:42 | a table's capacity is `PostiTotali` when positive, else 4 |
| Ristorazione.GetTavoli | src/Template/Services/Ristorazione/RistorazioneService.cs:30-47 | the list holds every resource of type "Ristorante" and nothing else, each with its non-cancelled rows on the requested day (today when none is given) and its capacity |
| Ristorazione.StageSeats | src/Template/Services/Ristorazione/RistorazioneService.cs:133-144 | the loop stages `NumeroPosti` rows (none for a non-positive count), each one seat for the caller at the table on the requested day |
| Ristorazione.PrenotaTavolo | src/Template/Services/Ristorazione/RistorazioneService.cs:49-167 | any refusal or a failed save leaves the bookings unchanged; a confirmation appends the staged rows with fresh keys |
| Ristorazione.SeatRowsMeasures | src/Template/Services/Ristorazione/RistorazioneService.cs:133-144 | the staged rows book exactly `n` single seats at that table on that day and nothing elsewhere |
| Ristorazione.RequestRefusals | src/Template/Services/Ristorazione/RistorazioneService.cs:51-67 | a missing request or `NumeroPosti <= 0` is refused first; otherwise a day before today's UTC date is refused |
| Ristorazione.TableLookupRefusals | src/Template/Services/Ristorazione/RistorazioneService.cs:71-88 | a valid request is refused as "not found" iff no resource has the id, and as "not a table" iff the resource is not of type "Ristorante" |
| Ristorazione.DeskHolderRefused | src/Template/Services/Ristorazione/RistorazioneService.cs:91-107 | a caller holding an active non-restaurant booking that day is refused any table |
| Ristorazione.TableAdmission | src/Template/Services/Ristorazione/RistorazioneService.cs:110-126 | past the guards, the request is admitted iff active rows plus seats asked fit the capacity; a refusal reports capacity minus active rows |
| Ristorazione.ConfirmedRows | src/Template/Services/Ristorazione/RistorazioneService.cs:133-153 | a confirmation stages exactly `NumeroPosti` rows, each one person for the caller at the table on the requested day, not cancelled |
| Ristorazione.ServiceKeepsSeats | src/Template/Services/Ristorazione/RistorazioneService.cs:110-147 | when the table's capacity plus the seats asked stays within int32 (no wrap-around), a confirmed request keeps every table's active rows per day within its capacity |
| Ristorazione.SeatsAdmitted | src/Template/Services/Ristorazione/RistorazioneService.cs:71-144 | a confirmed request names an existing table with room for every seat asked for, and stages one row per seat |
| Ristorazione.SeatWrapAround | src/Template/Services/Ristorazione/RistorazioneService.cs:118 | with one seat taken, a request for 2147483647 seats wraps the unchecked `int` sum negative and is admitted |
| Ristorazione.CountIgnoresPartySize | src/Template/Services/Ristorazione/RistorazioneService.cs:110-118 | the service counts rows, not people: after the cart engine books a party of four at a four-seat table, three more seats are admitted |
| RistorazioneWeb.PrenotaTavolo | src/Template.Web/Features/Ristorazione/RistorazioneController.cs:37-89 | the caller id comes from the claims; a refusal, or a save that fails (a fault, an oversized field, or a row whose table does not exist, refused by the foreign key), answers BadRequest and leaves the bookings unchanged; otherwise the staged rows are appended with fresh keys and the seat count is answered |
| RistorazioneWeb.WebAdmission | src/Template.Web/Features/Ristorazione/RistorazioneController.cs:60-66 | the request is admitted iff all rows of that table and day, cancelled ones included, plus the seats asked are at most 4; a refusal reports 4 minus those rows |
| RistorazioneWeb.WebForeignKey | src/Template.Web/Features/Ristorazione/RistorazioneController.cs:69-81 | since the table is never looked up, the staged rows pass the foreign key iff the table exists or no seat is asked for |
| RistorazioneWeb.WebStagedRows | src/Template.Web/Features/Ristorazione/RistorazioneController.cs:69-78 | an admitted request stages `NumeroPosti` rows (none for a non-positive count), each one seat for the caller at the table on that day, created at local time |
| RistorazioneWeb.CancelledRowsBlock | src/Template.Web/Features/Ristorazione/RistorazioneController.cs:60-61 | four cancelled bookings leave no seat: the count does not filter cancelled rows |
| RistorazioneWeb.DeskRuleNotEnforced | src/Template.Web/Features/Ristorazione/RistorazioneController.cs:45-57 | a user holding a desk that day is refused a table by the service but admitted by the controller, whose desk rule is commented out |
| RistorazioneWeb.WebKeepsFourRows | src/Template.Web/Features/Ristorazione/RistorazioneController.cs:60-81 | the controller alone keeps every resource at four rows or fewer per day |
| RistorazioneWeb.WebStaged | src/Template.Web/Features/Ristorazione/RistorazioneController.cs:63-78 | an admitted request had room for its seats and stages the same seat rows the service would |
| SingleBooking.CommandRow | src/Template/Services/Postazioni/Postazione.Command.cs:46-52 | the added row has the command's resource and day, the user's Guid in its 36-character text form and the UTC clock as creation time, so it fits the schema |
| SingleBooking.EseguiPrenotazione | src/Template/Services/Postazioni/Postazione.Command.cs:29-59 | a missing resource or a taken day throws and nothing changes; otherwise exactly one row is appended and the command returns true; a failed save changes nothing |
| SingleBooking.OccupataIffRows | src/Template/Services/Postazioni/Postazione.Command.cs:38-39 | a resource is taken on a day iff it has at least one row that day, cancelled rows included |
| SingleBooking.CancelledBlocks | src/Template/Services/Shared/Postazione.Command.cs:35-41 | a cancelled booking still blocks its resource for its day |
| SingleBooking.RepeatRefused | src/Template/Services/Postazioni/Postazione.Command.cs:38-56 | after the command adds its row, the same resource and day, by anyone, throws "already booked" |
| SingleBooking.CommandKeepsSingleRow | src/Template/Services/Postazioni/Postazione.Command.cs:38-56 | the command keeps every resource at one row per day or fewer |
| MapQueries.MapOf | src/Template/Services/Shared/Postazione.Queries.cs:69-103 | the map lists exactly the enabled resources of the catalog, each with its day's entry, and nothing else |
| MapQueries.MapIdsUnique | src/Template/Services/Shared/Postazione.Queries.cs:77-103 | with unique resource keys the map has one entry per resource |
| MapQueries.RistoranteOf | src/Template/Services/Shared/Postazione.Queries.cs:113-136 | the restaurant view lists exactly the enabled tables, each with its day's entry, and nothing else |
| MapQueries.FreeIffCommandBooks | src/Template/Services/Shared/Postazione.Queries.cs:86-89 | a resource other than a table is shown free iff the single-booking command would book it that day, and shown red iff that command throws "already booked" |
| MapQueries.FreeDeskAdmitted | src/Template/Services/Shared/Postazione.Queries.cs:86-89 | a resource other than a table shown free is admitted by the cart engine, whatever the party size |
| MapQueries.RedButBookable | src/Template/Services/Shared/Postazione.Queries.cs:72-75 | the map counts cancelled rows: a desk whose only booking is cancelled is red, yet the cart engine books it |
| MapQueries.OccupiedIffControllerRefuses | src/Template.Web/Features/Ristorazione/RistorazioneController.cs:60-66 | for a four-seat table, the restaurant view shows it occupied iff the restaurant controller refuses one more seat |
| MapQueries.ViewsDisagreeOnDefault | src/Template/Services/Shared/Postazione.Queries.cs:82-125 | a table with no seat count is one seat on the map, taken by one booking, and four free seats in the restaurant view |
| MapQueries.AggiungiGruppo | src/Template/Services/Shared/Postazione.Queries.cs:186-189 | the nested loops append the group's desks in row-major order and advance the counter once per desk |
| MapQueries.AggiungiRiga | src/Template/Services/Shared/Postazione.Queries.cs:188 | the inner loop appends the desks of one row, column by column, and advances the counter once per desk |
| MapQueries.GridSize | src/Template/Services/Shared/Postazione.Queries.cs:188 | a group adds rows × cols desks (none for a non-positive count) and advances the counter by as much, with 32-bit wrap-around |
| MapQueries.GridLayout | src/Template/Services/Shared/Postazione.Queries.cs:188 | the desk of row r and column c sits at position r·cols + c, at X = startX + c·(width + gap), Y = startY + r·(height + gap), named after the counter advanced r·cols + c times |
| MapQueries.GridDesksShape | src/Template/Services/Shared/Postazione.Queries.cs:188 | every desk of a group is enabled, has one seat and the group's type |
| MapQueries.SeedTables | src/Template/Services/Shared/Postazione.Queries.cs:167-180 | the seeding loop yields three tables, the i-th of which is "rist-(i+1)" at Y = 45 + 115·i with four seats |
| MapQueries.AggiungiTavoli | src/Template/Services/Shared/Postazione.Queries.cs:167-180 | the table loop appends exactly those three tables, in order |
| MapQueries.EnsureSeeding | src/Template/Services/Shared/Postazione.Queries.cs:142-184 | a non-empty catalog is left alone; an empty one receives the seed catalog, numbered from the next key; no other table changes |
| MapQueries.SeedCatalogSize | src/Template/Services/Shared/Postazione.Queries.cs:152-180 | the seed catalog holds 23 resources |
| MapQueries.SeedCatalogShape | src/Template/Services/Shared/Postazione.Queries.cs:152-180 | every seeded resource is enabled; the tables have four seats and the desks one |
| MapQueries.SeedCatalogCounts | src/Template/Services/Shared/Postazione.Queries.cs:152-180 | the seed holds one event hall, fifteen single desks, two team rooms, two meeting rooms and three tables |
| MapQueries.Query | src/Template/Services/Shared/Postazione.Queries.cs:65-104 | the map query seeds first and then returns the map of the enabled resources for the requested day; bookings, users, menus and notices are unchanged |
| MapQueries.GetRistorante | src/Template/Services/Shared/Postazione.Queries.cs:109-137 | the restaurant query seeds first and then returns the enabled tables for the requested day; bookings, users, menus and notices are unchanged |
| ClientCart.PrezzoUnitario | src/Template.Web/wwwroot/js/prenotazione.js:236-245 | list prices are never negative, and positive exactly for the five known resource types |
| ClientCart.PrezzoItem | src/Template.Web/wwwroot/js/prenotazione.js:247-250 | a restaurant line costs 15 per person; any other line costs its unit price whatever the party size |
| ClientCart.FindIndex | src/Template.Web/wwwroot/js/prenotazione.js:158 | the result is the first line for the resource, or -1 exactly when no line names it |
| ClientCart.Without | src/Template.Web/wwwroot/js/prenotazione.js:178 | the filter keeps exactly the lines of the other resources |
| ClientCart.ApiItems | src/Template.Web/wwwroot/js/prenotazione.js:191-194 | the body carries, line by line, the resource id and the party size |
| ClientCart.Bind | src/Template.Web/wwwroot/js/prenotazione.js:191-205 | the body binds to cart lines iff every number fits an int, and then line by line with the same values |
| ClientCart.Storico | src/Template.Web/wwwroot/js/prenotazione.js:213-220 | the history gains one entry per line, the last line first |
| ClientCart.Dashboard.GetStats | src/Template.Web/wwwroot/js/prenotazione.js:75-97 | the stats sum the seats of the tables and one place per other resource, taken and free alike |
| ClientCart.Dashboard.StatoClasse | src/Template.Web/wwwroot/js/prenotazione.js:128-139 | a resource is drawn selected iff it is the selection or in the cart; a partial table has some but not all seats taken |
| ClientCart.Dashboard.SelezionaPostazione | src/Template.Web/wwwroot/js/prenotazione.js:141-152 | a full table or a taken resource changes nothing; anything else becomes the selection with one seat and fills an empty booking name |
| ClientCart.Dashboard.AggiungiAlCarrello | src/Template.Web/wwwroot/js/prenotazione.js:155-175 | the selection replaces the cart line of the same resource or is appended, and the selection is cleared; with no selection nothing changes |
| ClientCart.Dashboard.RimuoviDalCarrello | src/Template.Web/wwwroot/js/prenotazione.js:177-179 | the cart loses the lines of that resource and nothing else changes |
| ClientCart.Dashboard.PrezzoSelezione | src/Template.Web/wwwroot/js/prenotazione.js:256-260 | nothing selected costs 0; otherwise the selection's price for the seats requested |
| ClientCart.Dashboard.PreparaConferma | src/Template.Web/wwwroot/js/prenotazione.js:181-205 | a pending selection is added first; an empty cart sends nothing, otherwise the body of the cart's lines |
| ClientCart.Dashboard.ConfermaRiuscita | src/Template.Web/wwwroot/js/prenotazione.js:210-224 | on success the lines go in front of the history and the cart and the selection are emptied |
| ClientCart.AddKeepsUnique | src/Template.Web/wwwroot/js/prenotazione.js:155-175 | adding keeps one line per resource |
| ClientCart.AddedLine | src/Template.Web/wwwroot/js/prenotazione.js:155-175 | after adding, the cart has exactly one line for the resource, the new one |
| ClientCart.AddOthersUnchanged | src/Template.Web/wwwroot/js/prenotazione.js:155-175 | adding never touches the lines of other resources |
| ClientCart.AddThenRemove | src/Template.Web/wwwroot/js/prenotazione.js:155-179 | adding a new resource and removing it gives the cart back |
| ClientCart.WithoutKeepsUnique | src/Template.Web/wwwroot/js/prenotazione.js:177-179 | removing keeps one line per resource |
| ClientCart.TotaleAppend | src/Template.Web/wwwroot/js/prenotazione.js:252-254 | the cart total is additive over concatenation |
| ClientCart.AddTotale | src/Template.Web/wwwroot/js/prenotazione.js:155-175 | adding raises the total by the new line's price less that of the line it replaces |
| ClientCart.RemoveTotale | src/Template.Web/wwwroot/js/prenotazione.js:177-179 | removing lowers the total by the price of the resource's line |
| ClientCart.CartLinesDistinct | src/Template.Web/wwwroot/js/prenotazione.js:191-194 | the lines the page sends name each resource once, which the cart engine relies on |
| ClientCart.StatsBounds | src/Template.Web/wwwroot/js/prenotazione.js:83-93 | with sensible table counts, the taken places lie between zero and the total, so the free places are never negative |
| ClientCart.BookedIffNotSelectable | src/Template.Web/wwwroot/js/prenotazione.js:128-152 | a resource neither selected nor in the cart is drawn booked exactly when a click cannot select it |
| ClientMenu.Entries | src/Template.Web/wwwroot/js/prenotazione.js:28 | the keys of an array are its indices, one per element |
| ClientMenu.ShortKey | src/Template.Web/wwwroot/js/prenotazione.js:17-30 | a full weekday name in any case becomes its short label; any other key that is not an inherited property name stays as it is |
| ClientMenu.NormalizeMenuSettimanale | src/Template.Web/wwwroot/js/prenotazione.js:3-37 | the loop builds the normalised menu: null for a falsy input, unparsable text or a non-object, a TypeError for the text "null", otherwise the truthy entries under their short keys, or null when none is left |
| ClientMenu.NormalizedSound | src/Template.Web/wwwroot/js/prenotazione.js:28-34 | every key of the result comes from an entry with a truthy value, and holds that entry's value |
| ClientMenu.NormalizedComplete | src/Template.Web/wwwroot/js/prenotazione.js:28-34 | every entry with a truthy value leaves its short key in the result |
| ClientMenu.DistinctKeysCollide | src/Template.Web/wwwroot/js/prenotazione.js:28-34 | two distinct keys of one object, a full weekday name and its short label, land on one label and the later value is kept |
| ClientMenu.LastWriterWins | src/Template.Web/wwwroot/js/prenotazione.js:28-34 | for a short key, the last entry with a truthy value wins |
| ClientMenu.EmptyIffNoTruthyValue | src/Template.Web/wwwroot/js/prenotazione.js:36 | the menu is null exactly when no entry has a truthy value |
| ClientMenu.NullCases | src/Template.Web/wwwroot/js/prenotazione.js:4-15 | a falsy input, text that does not parse and a non-object give null; the text "null" throws |
| ClientMenu.ExampleMenu | src/Template.Web/wwwroot/js/prenotazione.js:17-36 | "LUNEDI" becomes "Lun", an empty day is dropped and an unknown key passes through |
| PrenotazioneWeb.Prenota | src/Template.Web/Features/Prenotazione/PrenotazioneController.cs:63-76 | an invalid model or an empty cart is refused before the engine runs; a null body throws; otherwise the engine's success or refusal becomes Ok or BadRequest, and only a success writes rows, those of the engine's plan |
| PrenotazioneWeb.GuardShadowsEngine | src/Template.Web/Features/Prenotazione/PrenotazioneController.cs:65-75 | the engine's own empty-cart refusal never reaches the page, and an Ok reports one booking per cart line, at least one |
| PrenotazioneWeb.MenuEntries | src/Template.Web/Features/Prenotazione/PrenotazioneController.cs:86-95 | the dictionary holds the seven days under Lun..Dom, in order |
| PrenotazioneWeb.MapMenu | src/Template.Web/Features/Prenotazione/PrenotazioneController.cs:84-99 | the menu is served iff some day is not null or blank, and then as the seven labelled days |
| PrenotazioneWeb.MenuForDate | src/Template.Web/Features/Prenotazione/PrenotazioneController.cs:101-106 | the first stored week starting on the date's week start is served, mapped; with no such week nothing is served |
| PrenotazioneWeb.ToJson | src/Template.Web/Features/Prenotazione/PrenotazioneController.cs:52-59 | the page receives one member per day, a string or null |
| PrenotazioneWeb.DayShown | src/Template.Web/wwwroot/js/prenotazione.js:28-34 | a day with a non-empty text reaches the page under its label |
| PrenotazioneWeb.KeyIsShownDay | src/Template.Web/wwwroot/js/prenotazione.js:28-34 | every key the page keeps is a label whose day has a non-empty text |
| PrenotazioneWeb.MenuReachesClient | src/Template.Web/Features/Prenotazione/PrenotazioneController.cs:84-99 | the served menu survives the page's normalisation: each non-empty day is shown under its label, null or empty days are dropped, and no other key appears |
| PrenotazioneWeb.ServedMenuNormalizes | src/Template.Web/Features/Prenotazione/PrenotazioneController.cs:97-98 | a menu the server serves is never turned back into null by the page |
| PrenotazioneWeb.WhitespaceDayShown | src/Template.Web/Features/Prenotazione/PrenotazioneController.cs:97 | a day of spaces counts as no menu on the server, yet the page shows it when another day has a menu |
| Notices.Cleaned | src/Template.Web/Features/Prenotazione/PrenotazioneController.cs:114-115 | exactly the notices with a non-blank field are kept, in order, never more than given |
| Notices.Trimmed | src/Template.Web/Infrastructure/AdminComunicazioniStore.cs:54-60 | a list of at most twenty is unchanged; a longer one keeps its first twenty |
| Notices.Pushed | src/Template.Web/Infrastructure/AdminComunicazioniStore.cs:37-38 | the new notice comes first, followed by the old list cut so that at most twenty remain |
| Notices.ComunicazioniStore.GetAdminToAdmin | src/Template.Web/Infrastructure/AdminComunicazioniStore.cs:14-20 | the copy is the list, at most twenty notices |
| Notices.ComunicazioniStore.GetSuperAdminToAdmin | src/Template.Web/Infrastructure/AdminComunicazioniStore.cs:22-28 | the copy is the list, at most twenty notices |
| Notices.ComunicazioniStore.AddAdminToAdmin | src/Template.Web/Infrastructure/AdminComunicazioniStore.cs:30-40 | a blank notice changes nothing; otherwise it goes in front and the list is cut to twenty; the other list is untouched |
| Notices.ComunicazioniStore.AddSuperAdminToAdmin | src/Template.Web/Infrastructure/AdminComunicazioniStore.cs:42-52 | the same on the other list |
| Notices.EmptyIffAllBlank | src/Template.Web/Infrastructure/AdminComunicazioniStore.cs:62-68 | a notice is ignored exactly when all three fields are blank; one non-blank field keeps it |
| Notices.AfterAddsIsNewestFirst | src/Template.Web/Infrastructure/AdminComunicazioniStore.cs:30-60 | after any run of adds, the list is the non-blank notices added, newest first, followed by the old list, cut to twenty |
| Notices.TwentyAddsFlush | src/Template.Web/Infrastructure/AdminComunicazioniStore.cs:30-60 | twenty non-blank notices in a row push out everything older |
| Notices.CleanedAppend | src/Template.Web/Features/Admin/AdminController.cs:164-165 | the filter keeps order: it distributes over concatenation |
| Calendar.Day | src/Template/Services/Shared/Postazione.Queries.cs:73 | the day number of an instant lies within the representable range, and the instant falls within that day |
| Calendar.DateOf | src/Template/Services/Shared/Postazione.Queries.cs:73 | `.Date` keeps the day and gives its midnight, at most one day before the instant |
| Calendar.WeekStart | src/Template.Web/Features/Prenotazione/PrenotazioneController.cs:78-82 | the week start is a Monday, on or before the date and less than seven days earlier |
| Calendar.WeekStartIsLastMonday | src/Template.Web/Features/Prenotazione/PrenotazioneController.cs:78-82 | the week start is the only Monday among the date and the six days before it |
| Calendar.WeekStartIdempotent | src/Template.Web/Features/Admin/AdminController.cs:189-193 | taking the week start twice changes nothing |
| Calendar.IsoYear | src/Template.Web/Features/Admin/AdminController.cs:197 | the ISO year is within 1..9999 and its week 1 holds the day or an earlier one, before next year's week 1 |
| Calendar.IsoWeek | src/Template.Web/Features/Admin/AdminController.cs:198 | the ISO week number is between 1 and the year's 52 or 53 weeks |
| Calendar.IsoWeekMonday | src/Template.Web/Features/Admin/AdminController.cs:234 | the Monday of an ISO week exists iff the year is 1..9999, the week 1..53 and the result representable; it is week 1's Monday plus seven days per week, at midnight |
| Calendar.IsoWeekMondayOfDate | src/Template.Web/Features/Admin/AdminController.cs:195-234 | the Monday of a date's ISO week is its week start: ISO weeks are the application's Monday-based weeks |
| Calendar.Week1MondayStep | src/Template.Web/Features/Admin/AdminController.cs:202-234 | consecutive ISO years start 52 or 53 weeks apart, on a Monday |
| Claims.CallerId | src/Template.Web/Features/Prenotazione/PrenotazioneController.cs:68 | the owner id is the NameIdentifier claim, else the identity name, else "Utente_Sconosciuto" |
| Claims.RoleOf | src/Template.Web/Infrastructure/AuthorizeRoleAttribute.cs:33 | the role is the "Ruolo" claim, or the plain user role when it is missing |
| AuthorizeRole.HasRole | src/Template.Web/Infrastructure/AuthorizeRoleAttribute.cs:35-43 | the scan with early exit finds the role iff it is one of the allowed roles |
| AuthorizeRole.OnAuthorization | src/Template.Web/Infrastructure/AuthorizeRoleAttribute.cs:21-49 | the result is set exactly when the decision sets one; a request that passes keeps what it had |
| AuthorizeRole.DecisionSpec | src/Template.Web/Infrastructure/AuthorizeRoleAttribute.cs:21-49 | 401 exactly for a missing or unauthenticated user, 403 exactly for a signed-in user whose role is not listed, no result otherwise |
| AuthorizeRole.NoRolesForbidsEveryone | src/Template.Web/Infrastructure/AuthorizeRoleAttribute.cs:35-48 | with no allowed roles nobody gets through |
| AuthorizeRole.MissingClaimIsPlainUser | src/Template.Web/Infrastructure/AuthorizeRoleAttribute.cs:33 | a missing role claim passes exactly the filters that allow the plain user role |
| AuthorizeRole.RolesCompareExactly | src/Template.Web/Infrastructure/AuthorizeRoleAttribute.cs:37 | roles compare exactly: "admin" does not pass a filter allowing "Admin" |
| AuthorizeRole.AdminFilterMatchesAdminCheck | src/Template.Web/Infrastructure/AuthorizeRoleAttribute.cs:21-49 | the filter allowing Admin and SuperAdmin lets through exactly the users the admin pages' own check accepts |
| Users.FindUser | src/Template/Services/Utenti/UserManagementService.cs:32 | the result is the first position holding the key, or none exactly when no user has it |
| Users.FirstWithEmail | src/Template/Services/Utenti/User.Queries.cs:81-84 | the result is the first position holding exactly that email, or none exactly when nobody has it |
| Users.FindUserAt | src/Template/Services/Utenti/UserManagementService.cs:32 | with unique keys a user's key is found at that user's own position |
| Users.RegistrationSpec | src/Template/Services/Utenti/RegisterService.cs:28-80 | a registration succeeds exactly when email and password are filled in, the email is new and the save goes through, and then adds one user with the submitted fields; every failure leaves the table as it was, with its own message |
| Users.RegistrationKeepsIdsUnique | src/Template/Services/Utenti/RegisterService.cs:51-61 | a registration with an unused key keeps keys unique |
| Users.RegistrationKeepsEmailsUnique | src/Template/Services/Utenti/RegisterService.cs:41-49 | no registration adds a second user with an email already present |
| Users.RegisterAllKeepsEmailsUnique | src/Template/Services/Utenti/RegisterService.cs:41-61 | however many registrations run in a row, no two users share an email |
| Users.RegistraUtente | src/Template/Services/Utenti/RegisterService.cs:28-80 | the method's new table and reply are those of the registration outcome |
| Users.RegisterPostSpec | src/Template.Web/Features/Register/RegisterController.cs:27-53 | the POST adds one user with the submitted fields when the form is valid, the email new and the save successful, and then redirects to the login page; otherwise it adds nobody, and a taken email is reported on the Email field |
| Users.ControllerMatchesService | src/Template.Web/Features/Register/RegisterController.cs:32-49 | on a valid form with email and password filled in the controller and the service add the same user or neither does |
| Users.SecondPostIsRefused | src/Template.Web/Features/Register/RegisterController.cs:32-37 | a valid form with a new email, posted twice, adds one user |
| Users.Register | src/Template.Web/Features/Register/RegisterController.cs:27-53 | the method's new table and reply are those of the POST outcome |
| Users.AggiornamentoSpec | src/Template/Services/Utenti/UserManagementService.cs:28-67 | an update succeeds exactly for a key in the table when the save goes through; it overwrites the email and names of that user only, keeping key, password and role; a missing key or a failed save changes nothing |
| Users.AggiornaUtente | src/Template/Services/Utenti/UserManagementService.cs:28-67 | the method's new table and reply are those of the update outcome |
| Users.CreazioneSpec | src/Template/Services/Utenti/UserManagementService.cs:69-103 | creation succeeds exactly when the save goes through, adds one user with the request's fields and the password "ChangeMe123!", and answers with the new key; a failed save changes nothing |
| Users.CreationSkipsEmailCheck | src/Template/Services/Utenti/UserManagementService.cs:73-83 | creation does not check the emails present: it adds a second user with a taken email |
| Users.CreaUtente | src/Template/Services/Utenti/UserManagementService.cs:69-103 | the method's new table and reply are those of the creation outcome |
| Users.AppendFreshKeepsIdsUnique | src/Template/Services/Utenti/UserManagementService.cs:82-83 | appending a user with an unused key keeps keys unique |
| Users.RemovedAt | src/Template/Services/Utenti/UserManagementService.cs:119-120 | removing position k leaves one user fewer: every user before k in place, every user after k one step forward |
| Users.EliminazioneSpec | src/Template/Services/Utenti/UserManagementService.cs:105-139 | a deletion succeeds exactly for a key in the table when the save goes through; it removes that user only, keeping the others in order; a missing key or a failed save changes nothing |
| Users.EliminaUtente | src/Template/Services/Utenti/UserManagementService.cs:105-139 | the method's new table and reply are those of the deletion outcome |
| Users.Target | src/Template/Services/Utenti/User.Commands.cs:32-34 | the command names the first user with its key, or nobody when it has no key or no user has it |
| Users.UpsertSpec | src/Template/Services/Utenti/User.Commands.cs:29-56 | a command naming an existing user sets its three names and keeps email, password and role; any other command appends a user with the command's email and names and no password; the returned key is that user's |
| Users.Handle | src/Template/Services/Utenti/User.Commands.cs:29-56 | the method's new table and returned key are those of the upsert outcome; a failed save throws and changes nothing |
| Users.GetUserByEmail | src/Template/Services/Utenti/User.Queries.cs:81-84 | the user returned is the first with exactly that email, or none when nobody has it |
| Users.Filtered | src/Template/Services/Utenti/User.Queries.cs:96-99 | exactly the users matching the filter are kept, never more than the table holds |
| Users.FilteredAppend | src/Template/Services/Utenti/User.Queries.cs:96-99 | the filter keeps table order: filtering a concatenation filters each part |
| Users.BlankFilterKeepsAll | src/Template/Services/Utenti/User.Queries.cs:96-99 | a blank filter returns the whole table |
| Users.SelectUsers | src/Template/Services/Utenti/User.Queries.cs:86-112 | the key and email of exactly the matching users, and their count |
| Users.IndexUsers | src/Template/Services/Utenti/User.Queries.cs:114-145 | the rows of exactly the matching users, with their names, and their count |
| Users.IndexIgnoresCurrentUserAndPaging | src/Template/Services/Utenti/User.Queries.cs:114-145 | the current user and the paging do not change the index |
| Users.UserDetailById | src/Template/Services/Utenti/User.Queries.cs:147-161 | the detail of the user with that key, or none when nobody has it |
| Users.CheckLogin | src/Template/Services/Utenti/User.Queries.cs:163-183 | the login succeeds iff the first user with that email matches the password, and returns that user's detail |
| Users.BlankPasswordNeverLogsIn | src/Template/Services/Utenti/User.Queries.cs:163-183 | a blank password never logs anyone in |
| Users.RegisteredUserCanLogIn | src/Template/Services/Utenti/User.Queries.cs:163-183 | whoever registers can log in with that email and password and gets the new account |
| Users.FirstAfterAppend | src/Template/Services/Utenti/User.Queries.cs:81-84 | a user appended with a new email is the first with it |
| Users.CreatedUserLogsInWithDefault | src/Template/Services/Utenti/UserManagementService.cs:79 | a user an admin creates with a new email logs in with the default password |
| Users.UpsertedUserCannotLogIn | src/Template/Services/Utenti/User.Commands.cs:36-46 | a user the upsert command creates has no password and can never log in |
| Users.BlankStoredPasswordNeverMatches | src/Template/Entities/User.cs:26-33 | a user whose stored password is blank is never matched |
| Users.MatchIsCaseSensitive | src/Template/Entities/User.cs:32 | the comparison is case-sensitive |
| Entities.NewPostazione | src/Template/Entities/Postazione.cs:12-33 | a new resource is enabled with one seat and no key yet |
| Entities.NewPrenotazione | src/Template/Entities/Prenotazione.cs:14-35 | a new booking row carries the given resource, day and user, one person, not cancelled, no note, created at the given local time |
| Entities.GuidText | src/Template/Services/Shared/Postazione.Command.cs:49 | a Guid prints as 36 characters with dashes at positions 8, 13, 18 and 23 |
| Entities.IsMatchWithPassword | src/Template/Entities/User.cs:26-33 | a password matches iff it is not blank and equals the stored one exactly |
| Db.FindPostazione | src/Template/Services/Prenotazioni/PrenotazioneService.cs:49 | a found resource is in the table with that key; none is returned only when no resource has it |
| Db.NameOf | src/Template.Web/Features/Shared/UltimiOrdiniViewComponent.cs:37 | the name joined to a row is its resource's name, or empty when the resource is missing |
| Db.FindByUniqueId | src/Template/Services/Prenotazioni/PrenotazioneService.cs:49 | with unique keys the lookup finds every resource of the table by its key |
| Db.NumberBookings | src/Template/Services/Prenotazioni/PrenotazioneService.cs:101 | the saved rows keep their order and get consecutive keys from the counter |
| Db.FindMenu | src/Template.Web/Features/Admin/AdminController.cs:113 | the result is the first menu stored for that week start, or none exactly when no menu has it |
| Db.Database.SaveBookings | src/Template/Services/Prenotazioni/PrenotazioneService.cs:101 | the save succeeds iff there is no fault, every row fits its column limits and names an existing resource (the foreign key), and then appends the rows with fresh keys; otherwise nothing is written |
| Db.ReferencesAppended | src/Template/Migrations/20260118143318_InitialCreate.cs:84-89 | appending numbered rows that name resources of the catalog keeps the foreign key of the table |
| Db.CatalogGrowthKeepsReferences | src/Template/Migrations/20260118143318_InitialCreate.cs:84-89 | appending resources never breaks the foreign key of the stored bookings |
| Db.FoundAfterAppend | src/Template/Migrations/20260118143318_InitialCreate.cs:84-89 | a resource found by key is found the same once more resources are appended |
| Db.Database.SavePostazioni | src/Template/Services/Shared/Postazione.Queries.cs:182-183 | the resources are appended with fresh keys and no other table changes |
| Db.BookingsAppended | src/Template/Services/Prenotazioni/PrenotazioneService.cs:101 | rows numbered from the counter keep the keys unique and below the advanced counter |
| Db.PostazioniAppended | src/Template/Services/Shared/Postazione.Queries.cs:182-183 | resources numbered from the counter keep the keys unique and below the advanced counter |
| Orders.Descrizione | src/Template.Web/Features/Shared/UltimiOrdiniViewComponent.cs:37 | the description starts with the resource name and adds the party size exactly when it is more than one |
| Orders.Attive | src/Template.Web/Features/Shared/UltimiOrdiniViewComponent.cs:30 | exactly the caller's bookings that are not cancelled, no more than the table holds |
| Orders.Recenti | src/Template.Web/Features/Shared/UltimiOrdiniViewComponent.cs:29-32 | at most four bookings |
| Orders.Marcati | src/Template.Web/Features/Shared/UltimiOrdiniViewComponent.cs:44-49 | one entry per entry of the query's list, each marked cancellable iff created less than an hour before the same clock reading, and otherwise the same |
| Orders.Proiettati | src/Template.Web/Features/Shared/UltimiOrdiniViewComponent.cs:33-41 | one projected entry per row, in order |
| Orders.Marcato | src/Template.Web/Features/Shared/UltimiOrdiniViewComponent.cs:48 | an entry is cancellable iff it was created less than an hour before now, and nothing else of it changes |
| Orders.InvokeAsync | src/Template.Web/Features/Shared/UltimiOrdiniViewComponent.cs:20-52 | the widget's method returns what the widget shows |
| Orders.MarkAll | src/Template.Web/Features/Shared/UltimiOrdiniViewComponent.cs:46-49 | the loop marks every entry of the query's list |
| Orders.UltimiOrdiniSpec | src/Template.Web/Features/Shared/UltimiOrdiniViewComponent.cs:20-52 | no user id gives nothing; otherwise the widget lists the caller's active bookings, newest creation first, at most four, none left out that was created later than one shown, each cancellable iff created less than an hour before now |
| Orders.TakeOfSorted | src/Template.Web/Features/Shared/UltimiOrdiniViewComponent.cs:31-32 | the first n after a descending sort come from the input, in key order, and nothing left out ranks above anything kept |
| Orders.Ordini | src/Template.Web/Features/AreaRiservata/AreaRiservataController.cs:28-38 | one order line per kept booking, in the same order |
| Orders.UltimeDieci | src/Template.Web/Features/AreaRiservata/AreaRiservataController.cs:30-31 | at most ten bookings |
| Orders.FindUserById | src/Template.Web/Features/AreaRiservata/AreaRiservataController.cs:27 | a found user is in the table with that key; none exactly when nobody has it |
| Orders.AreaOrdini | src/Template.Web/Features/AreaRiservata/AreaRiservataController.cs:24-38 | the page lists the order lines of the active bookings of the caller, who is the name identifier, else the identity name |
| Orders.OrderListSpec | src/Template.Web/Features/AreaRiservata/AreaRiservataController.cs:28-38 | a user's order lines are at most ten of the user's active bookings, each showing its booked day, latest booked day first, none left out booked for a later day than one shown |
| Orders.Acquisti | src/Template.Web/Features/AreaRiservata/AreaRiservataController.cs:40-47 | one entry per distinct resource name, with its count of the given bookings |
| Orders.AcquistiSpec | src/Template.Web/Features/AreaRiservata/AreaRiservataController.cs:40-47 | before the cut each name appears once, with its positive number of bookings |
| Orders.Frequenti | src/Template.Web/Features/AreaRiservata/AreaRiservataController.cs:48-49 | at most five entries |
| Orders.FrequentiSpec | src/Template.Web/Features/AreaRiservata/AreaRiservataController.cs:40-50 | at most five distinct names, most booked first, each with its number of bookings |
| Orders.HeaderFallbacks | src/Template.Web/Features/AreaRiservata/AreaRiservataController.cs:54-56 | with no matching user record the header shows the identity name and an empty email; a missing role claim reads "Utente", unlike the "User" every other page uses |
| Orders.WidgetAndAreaDisagree | src/Template.Web/Features/AreaRiservata/AreaRiservataViewModel.cs:23 | a booking made two hours ago for a later day is not cancellable in the widget but is in the reserved area, which measures from the booked day |
| Orders.CancellableWindow | src/Template.Web/Features/Shared/UltimiOrdiniViewComponent.cs:48 | an order is cancellable exactly while less than an hour has passed since its time, and never again after |
| Orders.DescriptionsDisagree | src/Template.Web/Features/AreaRiservata/AreaRiservataController.cs:35 | the server names the party on any line of more than one person, the page (prenotazione.js:216) on restaurant lines only: a meeting room for three reads "Sala Riunioni" on the page and "Sala Riunioni (x3)" on the server, a table for one "Tavolo 1 (x1)" and "Tavolo 1" |
| SuperAdmin.NonCancellate | src/Template.Web/Features/SuperAdmin/SuperAdminController.cs:104 | exactly the bookings that are not cancelled, no more than the table holds |
| SuperAdmin.Cancellate | src/Template.Web/Features/SuperAdmin/SuperAdminController.cs:99-100 | the number of cancelled bookings is at most the number of bookings |
| SuperAdmin.CancelledPlusActive | src/Template.Web/Features/SuperAdmin/SuperAdminController.cs:92-105 | every booking is either cancelled or not: the two counts add up to the total |
| SuperAdmin.SpendAppend | src/Template.Web/Features/SuperAdmin/SuperAdminController.cs:103-105 | the spend is additive over concatenation |
| SuperAdmin.SpendNonNegative | src/Template.Web/Features/SuperAdmin/SuperAdminController.cs:103-105 | a spend over non-negative prices is non-negative |
| SuperAdmin.Attive | src/Template.Web/Features/SuperAdmin/SuperAdminController.cs:95-96 | the active bookings, not cancelled and for now or later, are among the non-cancelled ones |
| SuperAdmin.CreatedInWeek | src/Template.Web/Features/SuperAdmin/SuperAdminController.cs:151-154 | the bookings created in the current week are among the bookings |
| SuperAdmin.UsersWithRole | src/Template.Web/Features/SuperAdmin/SuperAdminController.cs:86-88 | the users of a role are among the users |
| SuperAdmin.RoundHalfEven | src/Template.Web/Features/SuperAdmin/SuperAdminController.cs:109 | the average in cents is within half a cent of the exact quotient, and an exact tie goes to the even cent |
| SuperAdmin.RoundExact | src/Template.Web/Features/SuperAdmin/SuperAdminController.cs:109 | an exact quotient is returned unchanged |
| SuperAdmin.CancelledDiluteAverage | src/Template.Web/Features/SuperAdmin/SuperAdminController.cs:108-110 | the average divides the non-cancelled spend by all bookings, so a cancelled booking halves the average of two |
| SuperAdmin.NamedPrices | src/Template.Web/Features/SuperAdmin/SuperAdminController.cs:113-116 | one name and price per non-cancelled booking |
| SuperAdmin.PerPostazione | src/Template.Web/Features/SuperAdmin/SuperAdminController.cs:116-122 | one row per group of the grouping, with its name, count and spend |
| SuperAdmin.PiuPrenotate | src/Template.Web/Features/SuperAdmin/SuperAdminController.cs:123-124 | at most ten rows |
| SuperAdmin.PerPostazioneSpec | src/Template.Web/Features/SuperAdmin/SuperAdminController.cs:116-122 | each group is one distinct name, counted and summed over its bookings, and every booked name has a group |
| SuperAdmin.PiuPrenotateSpec | src/Template.Web/Features/SuperAdmin/SuperAdminController.cs:113-125 | the most-booked list names distinct resources, each with its count and spend, most bookings first, none left out with more bookings than one shown |
| SuperAdmin.SezioneOfNome | src/Template.Web/Features/SuperAdmin/SuperAdminController.cs:244-254 | a keyword found in the name gives one of the five sections |
| SuperAdmin.SezioneOfTipo | src/Template.Web/Features/SuperAdmin/SuperAdminController.cs:259-265 | a type that names a section gives one of the five sections |
| SuperAdmin.NormalizeSezione | src/Template.Web/Features/SuperAdmin/SuperAdminController.cs:240-269 | every resource lands in one of the five sections |
| SuperAdmin.TypeDecides | src/Template.Web/Features/SuperAdmin/SuperAdminController.cs:257-268 | when the name holds no keyword, the trimmed type decides, defaulting to a desk room |
| SuperAdmin.PlainTypesAreDeskRooms | src/Template.Web/Features/SuperAdmin/SuperAdminController.cs:257-268 | a "Team" or "Singola" resource whose name holds no keyword is a desk room |
| SuperAdmin.TypedSections | src/Template.Web/Features/SuperAdmin/SuperAdminController.cs:257-268 | with a silent name, "Riunioni" is a meeting room, "Ristorante" the restaurant, "Eventi" the event hall, and no type a desk room |
| SuperAdmin.NameDecides | src/Template.Web/Features/SuperAdmin/SuperAdminController.cs:242-255 | a keyword in the trimmed name decides the section whatever the type |
| SuperAdmin.NameBeatsType | src/Template.Web/Features/SuperAdmin/SuperAdminController.cs:245-248 | a name mentioning a meeting and no event hall is a meeting room whatever its type |
| SuperAdmin.SectionPrices | src/Template.Web/Features/SuperAdmin/SuperAdminController.cs:206-212 | one section and price per non-cancelled booking, the section one of the five |
| SuperAdmin.Lookups | src/Template.Web/Features/SuperAdmin/SuperAdminController.cs:229-232 | the five sections in their fixed order, each with its group or a zero row |
| SuperAdmin.SpesaPerSezione | src/Template.Web/Features/SuperAdmin/SuperAdminController.cs:204-238 | the page lists five rows |
| SuperAdmin.LookupsAreReference | src/Template.Web/Features/SuperAdmin/SuperAdminController.cs:229-232 | the lookups give every section its spend and count, zero for a section nobody booked |
| SuperAdmin.SpesaPerSezioneSpec | src/Template.Web/Features/SuperAdmin/SuperAdminController.cs:204-238 | the five sections appear once each, highest spend first and, at equal spend, more bookings first, each with its spend and count |
| SuperAdmin.SectionsCoverAll | src/Template.Web/Features/SuperAdmin/SuperAdminController.cs:211-218 | every non-cancelled booking falls in exactly one section, so the counts and spends add up to the whole |
| SuperAdmin.SectionPricesSum | src/Template.Web/Features/SuperAdmin/SuperAdminController.cs:211-218 | the section rows carry the same prices as the bookings |
| SuperAdmin.CreatedOn | src/Template.Web/Features/SuperAdmin/SuperAdminController.cs:183-185 | exactly the bookings created on that day |
| SuperAdmin.StatsGiornaliere | src/Template.Web/Features/SuperAdmin/SuperAdminController.cs:172-196 | the series exists unless today is within six days of the first representable day, and then has seven days |
| SuperAdmin.Series | src/Template.Web/Features/SuperAdmin/SuperAdminController.cs:181-193 | seven consecutive days, one entry per day |
| SuperAdmin.GetStatsGiornaliere | src/Template.Web/Features/SuperAdmin/SuperAdminController.cs:172-196 | the loop builds the series for the seven days ending today |
| SuperAdmin.CollectSeries | src/Template.Web/Features/SuperAdmin/SuperAdminController.cs:179-193 | the foreach appends, oldest first, one entry per day of the seven, each that day's count and non-cancelled spend |
| SuperAdmin.StatsGiornaliereSpec | src/Template.Web/Features/SuperAdmin/SuperAdminController.cs:172-196 | the series covers seven consecutive days ending today, oldest first; each counts every booking created that day and sums the non-cancelled prices |
| SuperAdmin.CancelledCountsButCostsNothing | src/Template.Web/Features/SuperAdmin/SuperAdminController.cs:190-191 | a cancelled booking counts on its day but adds nothing to the spend |
| SuperAdmin.BuildStats | src/Template.Web/Features/SuperAdmin/SuperAdminController.cs:76-170 | the statistics exist exactly when the daily series does |
| SuperAdmin.DashboardConsistent | src/Template.Web/Features/SuperAdmin/SuperAdminController.cs:76-170 | the figures agree: cancelled plus non-cancelled is the total, active and cancelled fit in it, each role count fits in the users, and the sections share out all non-cancelled bookings and the whole spend |
| SuperAdmin.Dashboard | src/Template.Web/Features/SuperAdmin/SuperAdminController.cs:26-49 | anyone whose role claim is not exactly "SuperAdmin" is forbidden; otherwise the page of the statistics |
| SuperAdmin.Dettaglio | src/Template.Web/Features/SuperAdmin/SuperAdminController.cs:281-299 | the detail is the user's projection with its counters filled in |
| SuperAdmin.ProjectedAll | src/Template.Web/Features/SuperAdmin/SuperAdminController.cs:281-289 | one projection per user, in order |
| SuperAdmin.UtentiDettagli | src/Template.Web/Features/SuperAdmin/SuperAdminController.cs:273-302 | a non super admin is forbidden; otherwise one detail per user, each with the user's non-cancelled bookings and their spend |
| SuperAdmin.CountAll | src/Template.Web/Features/SuperAdmin/SuperAdminController.cs:291-299 | the loop fills every entry of the projected list with the count and the spend of the non-cancelled bookings under its id, and changes nothing else |
| SuperAdmin.DettaglioAfterBooking | src/Template.Web/Features/SuperAdmin/SuperAdminController.cs:293-298 | a new non-cancelled booking adds one booking and its price to its owner's detail only; a cancelled one changes nothing |
| Admin.IsAdminSpec | src/Template.Web/Features/Admin/AdminController.cs:29-37 | exactly the authenticated users whose role claim is Admin or SuperAdmin pass; a missing claim never does |
| Admin.IsoParts | src/Template.Web/Features/Admin/AdminController.cs:207-227 | a text that splits gives exactly two non-empty parts |
| Admin.ParseIsoWeek | src/Template.Web/Features/Admin/AdminController.cs:202-235 | a blank text gives no week; a parsed week is a Monday at midnight |
| Admin.IsoWeekStartsOnMonday | src/Template.Web/Features/Admin/AdminController.cs:234 | every ISO week that exists starts on a Monday at midnight |
| Admin.ParseToIsoWeek | src/Template.Web/Features/Admin/AdminController.cs:195-235 | reading back a date's ISO week text gives the Monday of its week: the editor's week field round-trips |
| Admin.LowerCaseWeekIsIgnored | src/Template.Web/Features/Admin/AdminController.cs:210-218 | the "-W" test ignores case but the split does not, so a lower-case "-w" between numbers reads as no week |
| Admin.WeekOutOfRangeThrows | src/Template.Web/Features/Admin/AdminController.cs:234 | a week past the last one of its year throws, rather than falling back |
| Admin.TargetWeek | src/Template.Web/Features/Admin/AdminController.cs:102-111 | the save's week is a Monday at midnight, and there is none exactly when the week text is not blank and its parse throws |
| Admin.UpsertedSpec | src/Template.Web/Features/Admin/AdminController.cs:113-129 | after the upsert there is still at most one menu per week and exactly one for the target week, holding the new days; every other week's menu is kept, none is lost, and the table grows only for a new week |
| Admin.FindMenuIsOnly | src/Template.Web/Features/Admin/AdminController.cs:113 | the only menu of a week is the one found |
| Admin.ResolveWeek | src/Template.Web/Features/Admin/AdminController.cs:102-111 | the method's week is the target week |
| Admin.StoreMenu | src/Template.Web/Features/Admin/AdminController.cs:113-129 | the menus become the upsert of the target week with the posted days, and no other table changes |
| Admin.SaveMenuSettimanale | src/Template.Web/Features/Admin/AdminController.cs:99-133 | a non-admin is refused and nothing changes; a week text that throws is a server error with nothing changed; otherwise the week is upserted and the reply redirects to it |
| Admin.MenuEditor | src/Template.Web/Features/Admin/AdminController.cs:73-95 | the editor always opens on a Monday |
| Admin.SaveThenView | src/Template.Web/Features/Admin/AdminController.cs:73-133 | saving a week and opening the editor where the save redirects shows the days just saved, under a week text that reads back as the same week |
| Admin.MondayIsOwnWeekStart | src/Template.Web/Features/Admin/AdminController.cs:189-193 | a Monday at midnight is its own week start |
| Admin.Padded | src/Template.Web/Features/Admin/AdminController.cs:149-152 | the notices are kept in front and padded with empty ones up to three |
| Admin.ItemsOf | src/Template.Web/Features/Admin/AdminController.cs:141-147 | one notice per stored row, in order |
| Admin.Notifiche | src/Template.Web/Features/Admin/AdminController.cs:136-156 | a non-admin is refused; otherwise the stored notices padded to three |
| Admin.Staged | src/Template.Web/Features/Admin/AdminController.cs:171-181 | one new row per kept notice, with fresh keys, its fields and the save time |
| Admin.SaveNotifiche | src/Template.Web/Features/Admin/AdminController.cs:159-186 | a non-admin is refused; otherwise the stored notices are replaced by the non-blank ones submitted, in order; a failed first save changes nothing and a failed second save leaves the table empty |
| Admin.SaveThenOpen | src/Template.Web/Features/Admin/AdminController.cs:141-182 | reopening the editor after a save shows exactly the non-blank notices submitted, in the order submitted |
| Text.Trim | src/Template.Web/Features/SuperAdmin/SuperAdminController.cs:244 | the trim removes exactly the leading and trailing white space, and is empty iff the text is blank |
| Text.Upper | src/Template.Web/Features/Admin/AdminController.cs:210 | upper-casing keeps the length and maps each character |
| Text.Lower | src/Template.Web/wwwroot/js/prenotazione.js:29 | lower-casing keeps the length and maps each character |
| Text.IndexOf | src/Template.Web/Features/Admin/AdminController.cs:212 | the first occurrence of the separator, or -1 exactly when it does not occur |
| Text.SplitOn | src/Template.Web/Features/Admin/AdminController.cs:212 | a text without the separator splits into itself |
| Text.Split | src/Template.Web/Features/Admin/AdminController.cs:212 | the split without empty entries yields only non-empty pieces |
| Text.TryParseInt | src/Template.Web/Features/Admin/AdminController.cs:229-232 | a parsed value fits in 32 bits |
| Text.FormatD2 | src/Template.Web/Features/Admin/AdminController.cs:199 | the D2 format has at least two digits |
| Text.ParseFormatD2 | src/Template.Web/Features/Admin/AdminController.cs:199-231 | a week number formatted with D2 parses back to itself |
| Text.ParseFormatNat | src/Template.Web/Features/Admin/AdminController.cs:199-229 | a year formatted in decimal parses back to itself |
| Text.SplitJoinedDigits | src/Template.Web/Features/Admin/AdminController.cs:212 | two digit strings joined by "-W" split back into exactly those two |
| Ranking.SortDescSpec | src/Template.Web/Features/SuperAdmin/SuperAdminController.cs:233-234 | the descending sort orders by the two keys and keeps every element as often as it occurs |
| Ranking.SortStable | src/Template.Web/Features/SuperAdmin/SuperAdminController.cs:233-234 | the sort is stable: elements with equal keys keep their input order |
| Ranking.Take | src/Template.Web/Features/SuperAdmin/SuperAdminController.cs:124 | Take(n) is the first n elements, or all of them when fewer |
| Ranking.TopN | src/Template.Web/Features/SuperAdmin/SuperAdminController.cs:123-124 | the first n of a sorted list are its top n |
| Ranking.TopOfSort | src/Template.Web/Features/SuperAdmin/SuperAdminController.cs:123-124 | the first n of the sorted input come from the input, in ranking order, none left out ranking before one kept |
| Ranking.GroupIndex | src/Template.Web/Features/SuperAdmin/SuperAdminController.cs:116 | the position of the group with that name, or -1 exactly when there is none |
| Ranking.GroupBySpec | src/Template.Web/Features/SuperAdmin/SuperAdminController.cs:116-122 | one group per distinct name, with the count and the sum of the items of that name |
| LegacyBooking.RequestedIdsSelected | src/Template.Web/Features/Prenotazione/PrenotazioneService.cs:49-51 | when every requested id has a resource, the selected ids are exactly the requested ones |
| LegacyBooking.StagedForEveryId | src/Template.Web/Features/Prenotazione/PrenotazioneService.cs:58-78 | a successful staging has a row for every requested id, whose resource can hold the party |
| LegacyBooking.StagedRowsShape | src/Template.Web/Features/Prenotazione/PrenotazioneService.cs:66-75 | the staged rows are one per selected resource, each for a requested id, with the request's party, note and day, not cancelled |
| LegacyBooking.NoOccupiedNoActive | src/Template.Web/Features/Prenotazione/PrenotazioneService.cs:36-43 | when no name is reported, no requested resource has an active booking that day |
| Occupancy.IncrementedWraps | src/Template/Services/Shared/Postazione.Queries.cs:188 | n increments of an int counter add n, with 32-bit wrap-around |
| Occupancy.Inc32IsAdd32 | src/Template/Services/Shared/Postazione.Queries.cs:188 | the counter's increment is the unchecked addition of one |

## Left out

- Concurrency, transactions and isolation: each call is one atomic step on the tables. A rollback is "the tables are unchanged", and the check-then-insert race between requests is not modelled.
- Clocks: `DateTime.Now` and `DateTime.UtcNow` are parameters (ticks), and the offset between local time and UTC is whatever the caller passes. Day boundaries are the `.Date` of the value given.
- `DateTime` range: adding days near year 9999, which throws in .NET, is not modelled.
- Money: prices are integer cents rather than `decimal`. Rounding of the average spend is modelled as banker's rounding to cents. The page's percentage `Math.round` on a float ratio is left out.
- SQL ordering: ties in `OrderBy`/`OrderByDescending` are broken by table order (a stable sort). The database may break them otherwise.
- Collation: text comparisons in queries (email filter, email lookup) are ordinal, as in memory. A case-insensitive database collation would match more.
- Dangling rows: the foreign key keeps every stored booking pointing at a resource. That is part of `Db.Database.Valid`. The reports are modelled on plain sequences, where a booking whose resource is missing reads its name as "" and its section as "Desk room", as the in-memory joins do. Deleting a resource, which would cascade to its bookings, is not an operation of this core.
- GUIDs: `Guid.TryParse` and `Guid.NewGuid` are parameters (`parseGuid`, `newId`). A GUID's text form is an opaque 36-character string.
- Framework validation: `ModelState.IsValid` is the parameter `modelValid`. The entities' `[Required]` and `[MaxLength]` attributes are checked by the framework, not by the services.
- Exception messages: except where they name a resource, they are kept as a refusal kind rather than as text.
- JSON and session storage: menus are modelled on values. The deserialisation of notices from the session is left out. Of `GetNotificheAzienda`, only its filter on non-blank notices (`Notices.Cleaned`) is kept.
- Browser I/O: `fetch`, `alert`, the tooltip and Vue's reactivity and mounting in `prenotazione.js` are left out. The component's fields are the fields of `ClientCart.Dashboard`, and the server's answer is a parameter.
- Pages without logic of their own: the map and `GetDatiMappa` view wiring, and the admin `Dashboard`, `EditInfoCards` and `UpdateInfoCards` actions.
- The `MessaggiSuperAdmin` table: `SuperAdminController.SaveNotificheAdmin` writes it and is left out; it is database plumbing with no rule beyond a blank check.
- Users-join reports: `UtentiMaggiorSpesa` and `RecentOrders` in `BuildStatsAsync` join users to bookings on stringified GUIDs through EF and are left out. `UtentiDettagli` is modelled on values.
- `UsersController`, `LoginController`, `DataGenerator` and hosting are not part of this model. Of the migrations and the DbContext, `Db.Database.Valid` keeps the column lengths (`Db.AllFitSchema`), the foreign key from bookings to resources (`Db.AllReference`) and the unique week-start index on menus (`Db.UniqueWeekStarts`). Other schema details (string column types, the cascade on delete) are left out.
- RistorazioneWeb.PrenotaTavolo: the model takes the controller as constructed. Its constructor asks for `SharedService` and the `Template.Services.Shared` `TemplateDbContext`. `src/Template.Web/Startup.cs` (lines 49-75) registers neither; it registers the `Template.Data` context. Dependency injection is outside the model.
- Admin.ToIsoWeek: has no contract of its own. Its meaning is stated by `Admin.ParseToIsoWeek`, which reads the week back from the text.
- Admin.MenuEditor: its contract states only that the week start shown is a Monday. What it shows after a save is stated by `Admin.SaveThenView`.
- Orders.Recenti, Orders.UltimeDieci and Orders.Frequenti: their own contracts state only the length bounds. Their order and contents are stated by `Orders.UltimiOrdiniSpec`, `Orders.OrderListSpec` and `Orders.FrequentiSpec`.
- ClientMenu.Entries: its contract states only how many entries an array yields. Its keys are used only through `ClientMenu.NormalizeMenuSettimanale`, whose results are stated by `ClientMenu.NormalizedSound` and `ClientMenu.NormalizedComplete`.
- LegacyBooking.OccupiedNames: its own contract states only when the list is empty. Which names it holds is stated by `LegacyBooking.OccupiedNamesMembers`.
- SingleBooking.EseguiPrenotazione: models the copy in `src/Template/Services/Postazioni/Postazione.Command.cs`, which stamps the creation time. The copy in `src/Template/Services/Shared/Postazione.Command.cs` (lines 45-50) builds its row from an entity (`Services/Shared/Prenotazione.cs`) with no creation time, party size or cancellation flag, columns the migration declares required; the model gives both copies the same row.
- Text.Upper and Text.Lower: fold ASCII letters only. .NET's `OrdinalIgnoreCase` also maps some other letters (the long s 'ſ' to 'S', the dotless 'ı' to 'I'), and JavaScript's `toLowerCase` lowers every letter, so a type written "rıstorante" matches in .NET but not here.
- ClientCart.Dashboard.AggiungiAlCarrello: the seat field is an integer here. The page reads it with `parseInt` (`prenotazione.js`, line 162), which can give `NaN`, truncate a decimal or read a numeric prefix of the text; that parse is not modelled.
