# Delivery driver app: route sequencer and its surroundings, modelled in Dafny

This project models the logic core of a mobile app for pharmacy delivery drivers. The
centre is the location service's **nearest-neighbour route sequencer** (`optimizeRoute`).
It starts at the driver's position. It then keeps picking the nearest unvisited stop,
appending its id and moving there, until no stops remain. Around it sit four smaller pieces:

- the map screen's route assembly and marker colours;
- the in-memory delivery store;
- the login form's validation and login attempt;
- the mock authentication service with its key-value session storage.

Modules, one per source file:

| module | file | source |
|---|---|---|
| `Wrappers` | wrappers.dfy | `null` results and thrown errors (`Option`, `Result`) |
| `DeliveryTypes` | delivery_types.dfy | types/delivery-types.ts, plus the `filter`/`find` over delivery lists that two files share |
| `LocationService` | location_service.dfy | services/location-service.ts |
| `DeliveryMapView` | delivery_map_view.dfy | components/map/DeliveryMapView.tsx |
| `Deliveries` | delivery_service.dfy | services/delivery-service.ts |
| `Auth` | auth_service.dfy | services/auth-service.ts |
| `Login` | login.dfy | app/login.tsx |

Modelling choices:

- **Distance.** The haversine great-circle distance is floating-point trigonometry. It is a
  parameter `km: (Location, Location) -> real`. The service then rounds to one decimal
  (`Math.round(d * 10) / 10`). `Dist(km, a, b)` is that rounded value in integer tenths of
  a kilometre, with `d * 10` taken as an exact real product. Comparing the source's results
  is the same as comparing these integers, and every sequencer contract is stated in terms
  of `Dist`.
- **The sequencer** `OptimizeRoute` is a method with the source's `while` loop, its inner
  `for` scan and the `splice` on a local copy. It is proved equal to `Ids(GreedyTour(...))`,
  a recursive reference definition. The lemmas about `GreedyTour` state the promised
  properties: it is a permutation of the input, each pick is greedy, ties go to the first
  listed stop, and a single stop gives a single id.
- **The delivery table** is a class holding a fixed `array<Delivery>`. The status update
  writes one array entry in place. `getDeliveries` works on a copy and has no `modifies`
  clause, so Dafny checks that it leaves the table alone. The source's `sort` is the
  built-in stable sort. It is modelled as a stable insertion sort, newest first.
- **Timestamps.** `createdAt` and `estimatedDeliveryTime` are ISO date strings in the source
  (types/delivery-types.ts:35-36). Here they are integer timestamps, and the optional
  `estimatedDeliveryTime` is an `Option<int>`. The token's `Date.now()` suffix is an opaque
  string parameter `now`.
- **Session storage** is a `map<string, Stored>`. A stored value is a plain string or a
  user record standing for its JSON text.
- **Screen state** (`route` on the map, the fields, errors and `isLoading` on the login
  screen) lives in classes whose methods update it. The login screen also keeps a ghost
  event log. The log records the order of the loading-flag writes and the call to `login`.

Two facts about the sequencer's code:

- Its comparisons at services/location-service.ts:169 and :172 use the distance already
  rounded to 0.1 km at :134. So stops whose distances round to the same tenth tie, and the
  first listed one wins even when the later one is strictly nearer.
  `RoundingHidesStrictlyNearer` exhibits this.
- The caller's list is copied at services/location-service.ts:162 before any `splice`, so
  the caller's array is never changed. In the model the input is a value (`seq<Stop>`).

## Model

| member | source | states |
|---|---|---|
| LocationService.RoundIsNearest | services/location-service.ts:134 | `Math.round` returns the integer n with n - 0.5 <= x < n + 0.5 (nearest, halves up) |
| LocationService.DistIsRoundedTenths | services/location-service.ts:116-135 | the distance in tenths of a km is the raw km value times ten rounded to the nearest integer, and is non-negative when the raw distance is |
| LocationService.DistMonotone | services/location-service.ts:134 | rounding never reverses the order of two raw distances |
| LocationService.DistToSelf | services/location-service.ts:120-134 | a point is at rounded distance 0 from itself when the haversine gives 0 there |
| LocationService.Ids | services/location-service.ts:181 | the id list has one entry per stop, the i-th being the i-th stop's id |
| LocationService.RemoveAt | services/location-service.ts:183 | `splice(k, 1)` keeps the elements before k and after k in their relative order, and the length drops by one |
| LocationService.RemoveAtMultiset | services/location-service.ts:183 | what `splice(k, 1)` removes is exactly the one element at k |
| LocationService.FirstNearest | services/location-service.ts:168-177 | the scan's pick is no farther than any stop, and every stop before it is strictly farther (ties go to the lowest index) |
| LocationService.ScanStep | services/location-service.ts:171-176 | one more scanned stop replaces the current pick only if strictly nearer |
| LocationService.GreedyTour | services/location-service.ts:162-186 | the tour has as many stops as the input; empty input gives an empty tour, and a single stop gives that stop |
| LocationService.GreedyTourIsPermutation | services/location-service.ts:162-186 | the visited stops are a permutation of the input stops |
| LocationService.GreedyTourIsNearestFirst | services/location-service.ts:166-183 | each stop, measured from the previous stop (or the driver), is no farther than any stop visited later |
| LocationService.GreedyRouteIsPermutation | services/location-service.ts:162-186 | the returned ids have the input's length and are the input ids, each as many times as given |
| LocationService.GreedyRouteStep | services/location-service.ts:179-183 | the route is the nearest stop's id followed by the route from that stop over the remaining stops |
| LocationService.IdsRemoveAt | services/location-service.ts:181-183 | splicing a stop out of the list splices its id out of the ids |
| LocationService.RouteGrowsByNearest | services/location-service.ts:179-183 | appending the nearest stop's id to the route so far and moving there leaves route-so-far plus rest-of-tour unchanged |
| LocationService.NearestOfThree | services/location-service.ts:168-177 | of three stops the first is picked when strictly nearer than the other two |
| LocationService.NearerSecondGoesFirst | services/location-service.ts:166-186 | when the second of two stops is strictly nearer, the route visits it first |
| LocationService.NearestFirstScenario | services/location-service.ts:166-186 | with A nearest the origin and C nearer A than B, stops [A, B, C] give [A, C, B] |
| LocationService.TieGoesToFirstListed | services/location-service.ts:171-176 | of two stops at equal rounded distance the first listed is visited first |
| LocationService.RoundingHidesStrictlyNearer | services/location-service.ts:134 | a stop 0.96 km away does not beat an earlier-listed stop 1.0 km away, because both round to 1.0 |
| LocationService.OptimizeRoute | services/location-service.ts:157-187 | the loop returns exactly the ids of the greedy tour from the driver's position |
| DeliveryTypes.RoleNameInjective | types/delivery-types.ts:45 | distinct roles are stored as distinct strings, so comparing stored names compares roles |
| DeliveryTypes.WithStatus | services/delivery-service.ts:111-113 | the filter keeps exactly the deliveries with the status and no more than it was given |
| DeliveryTypes.WithStatusConcat | components/map/DeliveryMapView.tsx:50-52 | filtering keeps the list order |
| DeliveryTypes.WithStatusCount | services/delivery-service.ts:152-155 | the filtered list's length is the number of deliveries with that status |
| DeliveryTypes.FirstWithId | services/delivery-service.ts:140 | the position found holds the id and no earlier one does; nothing is found only when no entry has the id |
| DeliveryTypes.FindById | services/delivery-service.ts:128 | the result is the first listed delivery with the id, and is null exactly when none has it |
| DeliveryMapView.MarkerColor | components/map/DeliveryMapView.tsx:79-90 | PENDING, IN_PROGRESS and COMPLETED each get their marker colour and CANCELLED gets the secondary text colour, in both directions |
| DeliveryMapView.FitCoordinates | components/map/DeliveryMapView.tsx:27-30 | the fit list is every delivery's location in order, then the driver's location when known |
| DeliveryMapView.StopsOf | components/map/DeliveryMapView.tsx:57-60 | one `{id, location}` pair per pending delivery, in order |
| DeliveryMapView.FoundLocations | components/map/DeliveryMapView.tsx:69-74 | at most one pushed point per returned id |
| DeliveryMapView.FoundLocationsAllFound | components/map/DeliveryMapView.tsx:69-74 | when every id is found, each id pushes the location of the first pending delivery with it |
| DeliveryMapView.TourStopFromPending | components/map/DeliveryMapView.tsx:57-65 | every stop the sequencer returns comes from a pending delivery with the same id and location |
| DeliveryMapView.RouteShape | components/map/DeliveryMapView.tsx:62-74 | the route starts at the driver and has one point per pending delivery plus one; point i+1 is the location of the first pending delivery with the i-th id |
| DeliveryMapView.RouteFollowsTour | components/map/DeliveryMapView.tsx:62-74 | with distinct ids, point i+1 is the location of the i-th stop of the greedy tour |
| DeliveryMapView.OptimalRouteShape | components/map/DeliveryMapView.tsx:47-76 | over all deliveries, only PENDING ones are sequenced, and the route has one point more than there are pending deliveries |
| DeliveryMapView.ComputedRouteIsDrawn | components/map/DeliveryMapView.tsx:137 | a route computed over at least one pending delivery is drawn exactly when `showRoute` is set |
| DeliveryMapView.AssembleRoute | components/map/DeliveryMapView.tsx:67-74 | the `forEach` builds the driver's location followed by the found locations |
| DeliveryMapView.DeliveryMap.constructor | components/map/DeliveryMapView.tsx:22 | the stored route starts empty |
| DeliveryMapView.DeliveryMap.CalculateOptimalRoute | components/map/DeliveryMapView.tsx:47-77 | with no driver position or no pending delivery the stored route is kept; otherwise it becomes the optimal route |
| Deliveries.InsertByDate | services/delivery-service.ts:116-118 | one more element, and the head is either the inserted delivery or the old head |
| Deliveries.InsertByDateKeepsOrder | services/delivery-service.ts:116-118 | inserting into a newest-first list keeps it newest first |
| Deliveries.InsertByDateAddsOne | services/delivery-service.ts:116-118 | inserting adds exactly that one delivery and loses none |
| Deliveries.SortNewestFirst | services/delivery-service.ts:116-118 | the sort result is newest first and a permutation of its input |
| Deliveries.SortKeepsSortedInput | services/delivery-service.ts:116-118 | a list already newest first is returned unchanged (equal dates keep their order) |
| Deliveries.Selected | services/delivery-service.ts:108-113 | without a status every delivery is kept; with one, exactly those with it |
| Deliveries.DeliveriesWithStatus | services/delivery-service.ts:108-118 | a by-status read returns exactly the deliveries with that status, as many as there are, newest first |
| Deliveries.WithStatusAt | services/delivery-service.ts:145 | the update changes only the status of entry k; every other entry and field stays |
| Deliveries.FindAfterUpdate | services/delivery-service.ts:140-146 | after an update by id, finding that id returns the updated delivery |
| Deliveries.DeliveryService.constructor | services/delivery-service.ts:4-99 | the table holds the given deliveries |
| Deliveries.DeliveryService.GetDeliveries | services/delivery-service.ts:104-121 | the result is newest first and a permutation of the selected deliveries |
| Deliveries.DeliveryService.GetDeliveryById | services/delivery-service.ts:126-129 | the first delivery with the id, or null exactly when none has it |
| Deliveries.DeliveryService.UpdateDeliveryStatus | services/delivery-service.ts:134-147 | an unknown id fails with 'Entrega no encontrada' and leaves the table alone; otherwise only the first match's status changes and that delivery is returned |
| Deliveries.DeliveryService.GetPendingCount | services/delivery-service.ts:152-155 | the count is the number of PENDING deliveries in the table |
| Auth.FirstMatch | services/auth-service.ts:46-48 | the position found matches email and password exactly and no earlier user does; nothing is found only when no user matches |
| Auth.Authenticate | services/auth-service.ts:46-59 | 'Credenciales inválidas' exactly when no user matches; success exactly when the first match is a driver, returning the first matching user's record without the password; no other failure message |
| Auth.DriverCanLogIn | services/auth-service.ts:8-16 | the mock driver's credentials log in as user 1 |
| Auth.AdminIsRefused | services/auth-service.ts:55-57 | the administrator's correct credentials get the drivers-only error |
| Auth.WrongPasswordBeforeRole | services/auth-service.ts:46-52 | a wrong password for the administrator is reported as bad credentials, not as a role error |
| Auth.MockToken | services/auth-service.ts:60 | a token is never the empty string |
| Auth.StoreSession | services/auth-service.ts:63-64 | the token and the user are stored under their keys, and every other key keeps its value |
| Auth.ClearSession | services/auth-service.ts:76 | exactly the two session keys are removed and every other key keeps its value |
| Auth.StoredUser | services/auth-service.ts:89-92 | the user is returned exactly when the user key holds a user record, and it is that record |
| Auth.HasRoleIffStoredRole | services/auth-service.ts:105-108 | `validateRole` with a role's name holds exactly when the stored user has that role |
| Auth.SessionAfterLogin | services/auth-service.ts:97-108 | after a login the session is authenticated, holds the user, and validates exactly that user's role |
| Auth.NoSessionAfterLogout | services/auth-service.ts:97-108 | after a logout the session is not authenticated and no role validates |
| Auth.LoginStoresOnlyOnSuccess | services/auth-service.ts:50-69 | a failed login stores nothing; a successful one stores the returned token and user, and that user is a driver |
| Auth.AuthService.constructor | services/auth-service.ts:36 | the service starts from the given storage |
| Auth.AuthService.Login | services/auth-service.ts:41-70 | the result and the new storage are those of the credential check, then the role check, then the writes |
| Auth.AuthService.Logout | services/auth-service.ts:75-77 | the storage loses exactly the two session keys |
| Auth.AuthService.IsAuthenticated | services/auth-service.ts:97-100 | true exactly when a token is stored and is not empty |
| Auth.AuthService.ValidateRole | services/auth-service.ts:105-108 | true exactly when a user is stored and its role is the required one |
| Login.TrimStartDropsBlankPrefix | app/login.tsx:30 | trimming the start drops a blank prefix and leaves nothing or a non-space first character |
| Login.TrimEndDropsBlankSuffix | app/login.tsx:30 | trimming the end drops a blank suffix and leaves nothing or a non-space last character |
| Login.TrimEmptyIffBlank | app/login.tsx:30 | `trim()` is empty exactly for strings made only of white space |
| Login.EmailPatternLocal | app/login.tsx:33 | the unanchored `\S+@\S+\.\S+` matches exactly when an '@' and a '.' at least two places later lie in a run of non-space characters that starts one before the '@' and ends one after the '.' |
| Login.EmailErrorCases | app/login.tsx:29-36 | the email gets 'requerido' exactly when blank, the format error exactly when non-blank and unmatched, and no error otherwise |
| Login.PasswordErrorCases | app/login.tsx:38-45 | the password gets 'requerida' exactly when blank, the length error exactly when non-blank and under 6 characters untrimmed, and no error otherwise |
| Login.PaddedShortPasswordPasses | app/login.tsx:42 | leading spaces count towards the minimum length |
| Login.DriverEmailMatches | app/login.tsx:33 | the demo driver's email matches the pattern |
| Login.DriverEmailPasses | app/login.tsx:29-36 | the demo driver's email gets no error |
| Login.LoginScreen.constructor | app/login.tsx:18-22 | the fields and errors start empty and the screen is not loading |
| Login.LoginScreen.ValidateForm | app/login.tsx:24-48 | both fields are checked and each gets its single message or none; the form is valid exactly when neither got one |
| Login.LoginScreen.HandleLogin | app/login.tsx:50-68 | login is attempted only when the form is valid, with the trimmed email and the password as typed, between setting and clearing `isLoading` |

## Left out

- The haversine formula and degree-to-radian conversion (services/location-service.ts:120-142): floating-point trigonometry. It is the parameter `km`, and only the rounding that follows it is modelled.
- Location permissions, one-shot position reads, the watch subscription and `sendLocationUpdate` (services/location-service.ts:10-111, 147-151): device I/O and a mocked network call.
- React hooks and effects, rendering, `fitToCoordinates` and style sheets. This includes the effect that calls `calculateOptimalRoute` only when `showRoute`, a position and at least one delivery are present (components/map/DeliveryMapView.tsx:41-45), and the `mapRef` guard around the fit list (:25).
- Simulated delays (`setTimeout`) and async scheduling in all services. Each call is modelled as one atomic step.
- Parsing of ISO date strings in the delivery store: `createdAt` is already an integer timestamp, so invalid dates (`NaN` comparisons) are not modelled.
- LocationService.Dist: the product `distance * 10` is taken as an exact real, not a double, so results that double rounding pushes across a half (a haversine value of the double nearest 0.15 gives 2 tenths in the source, 1 here) are not modelled; NaN distances, which make every `<` at services/location-service.ts:173 false, are not modelled either.
- The four mock delivery records (services/delivery-service.ts:4-98) are the constructor's argument rather than built in.
- DeliveryService.UpdateDeliveryStatus: deliveries are values, so the returned delivery is a copy of the updated entry. In the source it is the same object, and later writes through either reference would show in both.
- AsyncStorage, `JSON.stringify` and `JSON.parse` (services/auth-service.ts:63-64, 83-91): storage is a map, and a stored user is the record itself. A user entry that holds plain text is read as no user. Only `login` writes that key, so this case does not arise.
- `Date.now()` in the token (services/auth-service.ts:60) is the string parameter `now`.
- `getToken` and `getUser` appear only inside `IsAuthenticated`, `ValidateRole` and `StoredUser`.
- `Alert.alert` on a failed login, and the auth context that forwards `login` to the service (app/login.tsx:59-64, contexts/auth-context.tsx).
- Login.PasswordErrorCases: the length counts Unicode characters. JavaScript's `length` counts UTF-16 code units, so the two differ for characters outside the Basic Multilingual Plane.
- Presentational components, colour and configuration constants beyond the four marker colours.
