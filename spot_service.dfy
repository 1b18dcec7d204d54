/** The spot service: create, list, fetch, update and delete spots over the
    spots table. The authenticated username, which the service reads from
    the security context, is an explicit parameter of `CreateSpot`. */
module Service {
  import opened Wrappers
  import opened SpotModel
  import opened SpotRepository

  /** The entity a response describes: `MapToResponse` undone. */
  function SpotOf(r: SpotResponse): Spot {
    Spot(r.id, r.name, r.description, r.location, r.latitude, r.longitude, r.createdBy)
  }

  /** `mapToResponse`: the response carries all seven fields of the entity,
      unchanged, so the entity can be read back from it. */
  function MapToResponse(spot: Spot): (r: SpotResponse)
    ensures SpotOf(r) == spot
  {
    SpotResponse(spot.id, spot.name, spot.description, spot.location,
                 spot.latitude, spot.longitude, spot.createdBy)
  }

  /** Two different entities never map to the same response, so a client can
      tell stored spots apart by their responses alone. */
  lemma MapToResponseInjective(a: Spot, b: Spot)
    ensures MapToResponse(a) == MapToResponse(b) ==> a == b
  {
  }

  /** The stream `map(this::mapToResponse)` over a list of spots: one
      response per spot, in the same order. */
  function MapAll(spots: seq<Spot>): (responses: seq<SpotResponse>)
    ensures |responses| == |spots|
    ensures forall i | 0 <= i < |spots| :: SpotOf(responses[i]) == spots[i]
  {
    if spots == [] then [] else [MapToResponse(spots[0])] + MapAll(spots[1..])
  }

  /** The entity a new spot starts as: the request's five fields, owned by
      the authenticated user, with no id yet. */
  function NewSpot(request: SpotRequest, username: string): Spot {
    Spot(None, request.name, request.description, request.location,
         request.latitude, request.longitude, username)
  }

  class SpotService {
    /** The repository's table. */
    var repository: SpotTable

    ghost predicate Valid()
      reads this
    {
      SpotRepository.Valid(repository)
    }

    constructor ()
      ensures Valid() && repository == Empty()
    {
      repository := Empty();
    }

    /** `getAllSpots`: one response per stored spot, in listing order. */
    function GetAllSpots(): (responses: seq<SpotResponse>)
      reads this
      requires Valid()
      ensures |responses| == |repository.order| == |repository.rows|
      ensures forall i | 0 <= i < |responses| ::
        responses[i].id == Some(repository.order[i]) && SpotOf(responses[i]) == repository.rows[repository.order[i]]
    {
      MapAll(FindAll(repository))
    }

    /** `getSpotById`: fails exactly when no spot has that id; otherwise the
        response describes the stored spot with that id, field for field. */
    function GetSpotById(id: int): (r: Result<SpotResponse, SpotError>)
      reads this
      requires Valid()
      ensures r.Failure? <==> id !in repository.rows
      ensures r.Failure? ==> r.error == SpotNotFound(id)
      ensures id < 0 ==> r.Failure?
      ensures r.Success? ==> r.value.id == Some(id) && SpotOf(r.value) == repository.rows[id]
    {
      match FindById(repository, id)
      case None => Failure(SpotNotFound(id))
      case Some(spot) => Success(MapToResponse(spot))
    }

    /** Every spot the listing returns can be fetched by its id, with the
        same response: `getAllSpots` and `getSpotById` agree on every spot. */
    lemma ListedSpotsAreFound(i: nat)
      requires Valid() && i < |repository.order|
      ensures GetAllSpots()[i].id.Some?
      ensures GetSpotById(GetAllSpots()[i].id.value) == Success(GetAllSpots()[i])
    {
    }

    /** `createSpot`: stores one new spot owned by `username` with the
        request's fields under a fresh id, and returns its response. */
    method CreateSpot(request: SpotRequest, username: string) returns (response: SpotResponse)
      requires Valid()
      modifies this
      ensures Valid()
      ensures response.createdBy == username
      ensures response.name == request.name && response.description == request.description
      ensures response.location == request.location
      ensures response.latitude == request.latitude && response.longitude == request.longitude
      ensures response.id == Some(old(repository.nextId)) && response.id.value !in old(repository.rows)
      ensures repository.nextId == old(repository.nextId) + 1
      ensures repository.rows == old(repository.rows)[response.id.value := SpotOf(response)]
      ensures |repository.rows| == |old(repository.rows)| + 1
      ensures GetAllSpots() == old(GetAllSpots()) + [response]
    {
      var spot := NewSpot(request, username);
      FindAllAfterInsert(repository, spot);
      var (table, saved) := Save(repository, spot);
      repository := table;
      response := MapToResponse(saved);
      MapAllSnoc(old(FindAll(repository)), saved);
    }

    /** `updateSpot`: fails on a missing id and changes nothing; otherwise
        overwrites the five request fields of that spot in place, keeps its
        id and owner, leaves every other spot alone, and returns its new
        response. */
    method UpdateSpot(id: int, request: SpotRequest) returns (result: Result<SpotResponse, SpotError>)
      requires Valid()
      modifies this
      ensures Valid()
      ensures result.Failure? <==> id !in old(repository.rows)
      ensures result.Failure? ==> result.error == SpotNotFound(id) && repository == old(repository)
      ensures result.Success? ==>
        var before := old(repository.rows)[id];
        && repository.rows == old(repository.rows)[id := SpotOf(result.value)]
        && result.value.id == before.id == Some(id)
        && result.value.createdBy == before.createdBy
        && result.value.name == request.name && result.value.description == request.description
        && result.value.location == request.location
        && result.value.latitude == request.latitude && result.value.longitude == request.longitude
        && repository.order == old(repository.order)
        && repository.nextId == old(repository.nextId)
      ensures result.Success? ==> exists p | 0 <= p < |old(GetAllSpots())| ::
        && old(GetAllSpots())[p].id == Some(id)
        && GetAllSpots() == old(GetAllSpots())[p := result.value]
    {
      var found := FindById(repository, id);
      if found.None? {
        return Failure(SpotNotFound(id));
      }
      var spot := found.value;
      spot := spot.(name := request.name);
      spot := spot.(description := request.description);
      spot := spot.(location := request.location);
      spot := spot.(latitude := request.latitude);
      spot := spot.(longitude := request.longitude);
      ghost var p :| 0 <= p < |repository.order| && repository.order[p] == id;
      FindAllAfterOverwrite(repository, spot, p);
      MapAllUpdate(FindAll(repository), p, spot);
      ghost var listed := GetAllSpots();
      assert listed[p].id == Some(id);
      var (table, saved) := Save(repository, spot);
      repository := table;
      result := Success(MapToResponse(saved));
      assert GetAllSpots() == listed[p := result.value];
    }

    /** `deleteSpot`: fails on a missing id and changes nothing; otherwise
        removes exactly the spot with that id, and every other spot stays. */
    method DeleteSpot(id: int) returns (outcome: Outcome<SpotError>)
      requires Valid()
      modifies this
      ensures Valid()
      ensures outcome.Fail? <==> id !in old(repository.rows)
      ensures outcome.Fail? ==> outcome.error == SpotNotFound(id) && repository == old(repository)
      ensures outcome.Pass? ==> repository.rows == old(repository.rows) - {id}
      ensures repository.nextId == old(repository.nextId)
      ensures outcome.Pass? ==> |repository.rows| == |old(repository.rows)| - 1
      ensures outcome.Pass? ==> exists p | 0 <= p < |old(GetAllSpots())| ::
        && old(GetAllSpots())[p].id == Some(id)
        && GetAllSpots() == old(GetAllSpots())[..p] + old(GetAllSpots())[p + 1..]
    {
      if !ExistsById(repository, id) {
        return Fail(SpotNotFound(id));
      }
      ghost var p :| 0 <= p < |repository.order| && repository.order[p] == id;
      FindAllAfterDelete(repository, p);
      MapAllCut(FindAll(repository), p);
      ghost var listed := GetAllSpots();
      assert listed[p].id == Some(id);
      repository := DeleteById(repository, id);
      assert GetAllSpots() == listed[..p] + listed[p + 1..];
      return Pass;
    }
  }

  /** Mapping a list with one more spot at the end gives one more response at the end. */
  lemma MapAllSnoc(spots: seq<Spot>, spot: Spot)
    ensures MapAll(spots + [spot]) == MapAll(spots) + [MapToResponse(spot)]
  {
  }

  /** Replacing one spot replaces its response and no other. */
  lemma {:induction false} MapAllUpdate(spots: seq<Spot>, p: nat, spot: Spot)
    requires p < |spots|
    ensures MapAll(spots[p := spot]) == MapAll(spots)[p := MapToResponse(spot)]
  {
  }

  /** Cutting one spot out cuts its response out and keeps the rest in order. */
  lemma {:induction false} MapAllCut(spots: seq<Spot>, p: nat)
    requires p < |spots|
    ensures MapAll(spots[..p] + spots[p + 1..]) == MapAll(spots)[..p] + MapAll(spots)[p + 1..]
  {
    var cut, mapped := spots[..p] + spots[p + 1..], MapAll(spots);
    var after, expected := MapAll(cut), mapped[..p] + mapped[p + 1..];
    forall i | 0 <= i < |after|
      ensures after[i] == expected[i]
    {
      var j := if i < p then i else i + 1;
      assert cut[i] == spots[j] && expected[i] == mapped[j];
    }
  }
}
