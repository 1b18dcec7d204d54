# Skate-spot backend: spot store and user access decisions

A verified model of the two parts of the skate-spot REST backend that have
statable behaviour of their own:

- **The spot service** (`SpotService`): creating, listing, fetching,
  updating and deleting skate spots over the spots table. The table behind
  the repository interface is modelled as a value `SpotTable`: the rows by
  id, the order in which `findAll` lists them, and the next value of the
  identity column (ids start at 1 and are never reused). The service itself
  is a class `Service.SpotService` whose field `repository` holds that table;
  `createSpot`, `updateSpot` and `deleteSpot` are methods that change it,
  and `getAllSpots`, `getSpotById` and `mapToResponse` are functions.
  A spot's owner (`createdBy`) is the authenticated username, passed to
  `CreateSpot` as a parameter.
- **The user endpoints' access decisions** (`UserController`): pure
  functions from the caller's name and authorities, the user records the
  user service would look up, and the request, to the reply (200, 201, 204,
  403, or the user service's exception) together with the state-changing
  call made on the user service, if any. "No call" is how the model says
  that no user record changed.

Files: `wrappers.dfy` (Option, Result, Outcome), `spot_model.dfy` (the
`Spot` entity and the `SpotRequest` / `SpotResponse` transfer objects),
`spot_repository.dfy` (the table and its find, exists, save, delete and
list operations), `spot_service.dfy` (the service class), and
`user_controller.dfy` (the user endpoints).

Notes on sources that disagree:

- The system's design description lets an ordinary user delete a resource
  of their own. The user endpoint `deleteUser` is admin-only, and the model
  follows the code.
- The design description forbids an ordinary user to modify or delete a
  resource of somebody else, with a spot as its example. `updateSpot` and
  `deleteSpot` check no owner: any authenticated caller may overwrite or
  delete any spot. The model follows the code: `UpdateSpot` and `DeleteSpot`
  take no caller, and only `CreateSpot` records an owner.
- The design description asks that a refused read of another user's record
  not reveal whether the record exists. The code looks the record up before
  comparing owners, so the answer for a missing id is whatever the user
  service's `getUserById` does, while an existing record of somebody else
  gets 403. The user service is not part of this model; the model takes its
  lookup to throw a not-found exception, which the endpoint passes on, and
  `GetUserById` and `UpdateUser` state both cases under that assumption.
- `UserControllerTest` expects 200 and 201 from `getAllUsers` and
  `createUser` for a mock caller without the ADMIN authority. That holds only
  when method security is not active in that test slice. The model follows
  the `hasAuthority('ADMIN')` annotations: such a caller gets 403.

## Model

| member | source | states |
|---|---|---|
| SpotRepository.FindById | src/main/java/org/example/service/SpotService.java:43-44 | a row is found exactly when `findAll` lists its id, and the row found carries the id asked for |
| SpotRepository.ExistsById | src/main/java/org/example/service/SpotService.java:63 | `existsById` is true exactly when `findById` finds a row |
| SpotRepository.Save | src/main/java/org/example/model/Spot.java:17-19 | a spot without id gets a fresh identity key not used before and is listed last; a spot with an id overwrites that row in place; the saved spot always has an id; the table invariant is kept |
| SpotRepository.DeleteById | src/main/java/org/example/service/SpotService.java:66 | exactly the row with that id is removed, the listing loses exactly that id, ids are not reused, a missing id changes nothing |
| SpotRepository.RemoveId | src/main/java/org/example/service/SpotService.java:66 | the listing after a delete holds every other id and not that one, and still lists no id twice |
| SpotRepository.RemoveIdAt | src/main/java/org/example/service/SpotService.java:66 | removing an id from a listing without repetitions cuts out exactly its one position and keeps the rest in order |
| SpotRepository.ListingCoversTable | src/main/java/org/example/service/SpotService.java:37 | the listing has exactly one entry per stored row |
| SpotRepository.FindAll | src/main/java/org/example/service/SpotService.java:37 | `findAll` returns every stored spot exactly once, in listing order, as many as there are rows |
| SpotRepository.FindAllAfterInsert | src/main/java/org/example/service/SpotService.java:32 | saving a new spot lists it after all spots stored before |
| SpotRepository.FindAllAfterOverwrite | src/main/java/org/example/service/SpotService.java:58 | saving an existing spot replaces it at its position in the listing and nowhere else |
| SpotRepository.FindAllAfterDelete | src/main/java/org/example/service/SpotService.java:66 | deleting a stored spot cuts exactly its entry out of the listing; the others keep their order |
| Service.MapToResponse | src/main/java/org/example/service/SpotService.java:69-79 | the response carries all seven fields (id, name, description, location, latitude, longitude, createdBy) unchanged: the entity can be read back from it |
| Service.MapToResponseInjective | src/main/java/org/example/service/SpotService.java:69-79 | two different spots never give the same response |
| Service.MapAll | src/main/java/org/example/service/SpotService.java:37-39 | the stream map gives one response per spot, same count, same order, each describing its spot |
| Service.MapAllCut | src/main/java/org/example/service/SpotService.java:37-39 | cutting one spot out of the list cuts exactly its response out of the mapped list |
| Service.MapAllUpdate | src/main/java/org/example/service/SpotService.java:37-39 | replacing one spot in the list replaces exactly its response in the mapped list |
| Service.SpotService.GetAllSpots | src/main/java/org/example/service/SpotService.java:36-40 | one response per stored spot, same count and same order as the repository listing, each describing its stored spot |
| Service.SpotService.GetSpotById | src/main/java/org/example/service/SpotService.java:42-46 | fails with "spot not found" exactly when no spot has the id, a negative id included; otherwise returns that spot's fields unchanged (and, as a function, changes nothing) |
| Service.SpotService.ListedSpotsAreFound | src/main/java/org/example/service/SpotService.java:36-46 | every response the listing returns is what fetching its id returns |
| Service.SpotService.CreateSpot | src/main/java/org/example/service/SpotService.java:20-34 | the owner is the authenticated username, the five request fields are copied, exactly one spot is added under a fresh id, and the listing gains the returned response at its end |
| Service.SpotService.UpdateSpot | src/main/java/org/example/service/SpotService.java:48-60 | fails on a missing id and changes nothing; otherwise overwrites exactly name, description, location, latitude and longitude, keeps id and createdBy, changes no other spot, and the listing changes only at that spot's position |
| Service.SpotService.DeleteSpot | src/main/java/org/example/service/SpotService.java:62-67 | checks existence first: fails on a missing id and changes nothing; otherwise removes exactly that spot, every other spot stays, and the listing loses exactly its entry |
| UserController.HasAuthority | src/main/java/org/example/controller/UserController.java:54 | a caller's authorities match exactly when one of them equals the given string; being admin is having "ADMIN" among them |
| UserController.GetAllUsers | src/main/java/org/example/controller/UserController.java:23-27 | the list (200) exactly for a caller with ADMIN, 403 for everyone else |
| UserController.GetUserById | src/main/java/org/example/controller/UserController.java:30-42 | a missing id raises the lookup exception for every caller; an existing record goes (200) to an admin whoever owns it, or to its owner; everyone else gets 403 |
| UserController.CreateUser | src/main/java/org/example/controller/UserController.java:45-49 | the user service is asked to create exactly when the caller has ADMIN, answered 201 with the created record; otherwise 403 and nothing is created |
| UserController.UpdateUser | src/main/java/org/example/controller/UserController.java:52-60 | the record is looked up first for every caller; the update is called exactly when the record exists and the caller is admin or owner (200); otherwise 403 or the lookup exception, and the record is not modified |
| UserController.DeleteUser | src/main/java/org/example/controller/UserController.java:63-68 | the user service is asked to delete exactly when the caller has ADMIN, for any requested id (a negative one included), answered 204 without body; otherwise 403 and nothing is deleted |
| UserController.EndpointsFollowPolicy | src/main/java/org/example/controller/UserController.java:22-68 | every user endpoint refuses, or calls the user service, exactly as one admin-or-owner policy table says for an existing record; for a missing record reading and updating raise the lookup exception and call nothing, whatever the table says |
| UserController.OwnerOnlyForNonAdmins | src/main/java/org/example/controller/UserController.java:33-41 | a non-admin asking for somebody else's record is refused, while an admin and the owner get it |

## Left out

- The token service (`JwtService`): HMAC signing, compact serialisation and claim parsing are library work, and expiry reads the wall clock.
- `SpotController`, `AuthController` and `WebConfig`: HTTP routing, status wrapping and CORS set-up, with no logic of their own. `AuthService` is not part of this model.
- The user service: password encoding, uniqueness checks, and what create, update and delete do to the stored users. Its lookups are a map parameter and its results are parameters.
- The derived queries `findByCreatedBy` and `findByNameContainingIgnoreCase`: the spot service does not use them.
- The security context: the authenticated name and authorities are parameters.
- Null strings in requests and entities: strings are never null in the model, so the NOT NULL constraint on a spot's name never fires.
- Latitude and longitude: boxed Doubles that may be null, modelled as optional reals, since they are only copied.
- Java `Long` ids: unbounded, so overflow of the identity column is not modelled.
- The order of `findAll`: the database does not promise one; the model lists spots in insertion order.
- SpotRepository.Save: requires that a spot with an id is stored already. The service saves only new spots and spots it just found, and the framework's behaviour for any other id is not visible.
- Service.SpotService.UpdateSpot: models the five setters on the fetched entity as updates of a value followed by `save`; the entity's identity as a shared managed object is not captured.
- The exception text "Spot not found with id: …" is modelled by an error value carrying the id.
- UserController.DeleteUser: does not model a failure of the user service's delete for a missing id, because that service is not part of this model.
- UserController.UpdateUser: does not model the update itself; the record the user service returns is a parameter.
- UserController.UpdateUser: assumes the user service's lookup throws a not-found exception for a missing id; that service is not part of this model, and a lookup returning null would instead fail inside the endpoint or answer with an empty body.
- UserController.UpdateUser: models the reply of an allowed update as 200 with the returned record; an exception of the user service's update (a taken username or email, say) passes through the endpoint uncaught and is not modelled.
- UserController.GetUserById: assumes the user service's lookup throws a not-found exception for a missing id, for the same reason as for UpdateUser.
- UserController.CreateUser: models the reply of an admin's request as 201 with the returned record; an exception of the user service's create (a taken username or email, say) passes through the endpoint uncaught and is not modelled.
- Transactions and concurrent requests: each operation is one atomic step.
