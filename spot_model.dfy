/** The spot entity and the two data-transfer objects of the spot API. */
module SpotModel {
  import opened Wrappers

  /** A key of the spots table. The identity column hands out keys from
      `FirstId` upward, so a stored key is never negative; an id a client
      asks for is any `Long`, an `int` in the operations that take one. */
  type SpotId = nat

  /** The first value an identity column hands out. */
  const FirstId: SpotId := 1

  /** A latitude or longitude: a boxed Double that may be null. The service
      only copies these values, so a real number stands for the Double. */
  type Coordinate = Option<real>

  /** The persisted entity. `id` is null until the repository saves the spot
      for the first time; `createdBy` is the username of its owner. */
  datatype Spot = Spot(
    id: Option<SpotId>,
    name: string,
    description: string,
    location: string,
    latitude: Coordinate,
    longitude: Coordinate,
    createdBy: string)

  /** The body of a create or update request: the five fields a client may set. */
  datatype SpotRequest = SpotRequest(
    name: string,
    description: string,
    location: string,
    latitude: Coordinate,
    longitude: Coordinate)

  /** What the API returns for a spot: all seven fields of the entity. */
  datatype SpotResponse = SpotResponse(
    id: Option<SpotId>,
    name: string,
    description: string,
    location: string,
    latitude: Coordinate,
    longitude: Coordinate,
    createdBy: string)

  /** The RuntimeException "Spot not found with id: <id>". */
  datatype SpotError = SpotNotFound(id: int)
}
