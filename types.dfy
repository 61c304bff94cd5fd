/** The records the application passes around (its `types.ts`), as values. */
module Types {
  import opened Wrappers

  /** A travel report left on a place. */
  datatype Review = Review(id: string, userName: string, text: string, date: string)

  /**
    A point of interest. `lat` and `lng` hold the coordinate text the parser captured;
    the conversion to a floating-point number is not part of this model.
  */
  datatype Place = Place(
    id: string,
    name: string,
    description: string,
    address: string,
    distance: Option<string>,
    category: string,
    lat: string,
    lng: string,
    imageUrl: Option<string>,
    instagram: Option<string>,
    whatsapp: Option<string>,
    favoriteCount: Option<int>,
    reviews: Option<seq<Review>>)

  datatype RouteStep = RouteStep(instruction: string, distance: Option<string>)

  datatype Route = Route(destination: string, totalDistance: string, totalDuration: string, steps: seq<RouteStep>)

  datatype Role = User | Model

  /** One entry of the chat history. */
  datatype Message = Message(id: string, role: Role, text: string, places: Option<seq<Place>>, route: Option<Route>)
}
