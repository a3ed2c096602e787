/** The records of the showroom: vehicle models, their specification block,
    the filter criteria and the notifications. Numbers the source keeps as
    decimals (rating, 0-100 km/h time) are held as integer tenths. */
module Types {

  datatype Option<T> = None | Some(value: T)

  /** The closed category type `'Car' | 'Bike'`. */
  datatype ModelType = Car | Bike

  datatype FuelType = Petrol | Diesel | Electric | Hybrid

  /** The specification block without its engine description, which is
      display text and sits in `Presentation`. */
  datatype CarSpec = CarSpec(
    horsepower: int,
    torque: int,
    topSpeed: int,       // km/h
    acceleration: int,   // 0-100 km/h, tenths of a second
    fuelType: FuelType,
    year: int)

  /** One catalogue entry, with the fields the view reads or returns.
      `rating` is in tenths (4.9 is 49). The display-only fields are held in
      a `Presentation` keyed by `id`. */
  datatype Model = Model(
    id: string,
    name: string,
    modelType: ModelType,
    series: string,
    basePrice: int,      // INR
    specs: CarSpec,
    popularity: int,     // 1-100
    rating: int,         // 1-5, in tenths
    isNew: bool)

  /** The display-only fields of a catalogue entry: colour names, the engine
      description, the two image references and the marketing text. No step
      of the view, the filters or the bell reads them. */
  datatype Presentation = Presentation(
    colors: seq<string>,
    engine: string,
    image: string,
    interiorImage: string,
    description: string)

  /** The sort selector `'price-asc' | 'price-desc' | 'popularity' | 'rating' | 'speed'`. */
  datatype SortKey = PriceAsc | PriceDesc | Popularity | Rating | Speed

  /** The filter and sort criteria. `minSpeed` and `years` are carried but no
      stage of the view reads them. */
  datatype FilterState = FilterState(
    searchQuery: string,
    maxPrice: int,
    minSpeed: int,
    series: seq<string>,
    years: seq<int>,
    types: seq<ModelType>,
    sortBy: SortKey)

  datatype Notification = Notification(
    id: string,
    title: string,
    message: string,
    date: string,
    isRead: bool,
    modelId: Option<string>)
}
