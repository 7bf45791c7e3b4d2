/** The two record shapes of the app: a logged food item and a day bucket. */
module Models {
  import opened Wrappers

  /** A UUID, modelled as an opaque number. */
  type Uuid = nat

  /** The bytes of a photo. */
  type Bytes = seq<bv8>

  /** A logged food item. `date` is a timestamp in seconds. */
  datatype FoodModel = FoodModel(
    id: Uuid,
    title: string,
    calories: int,
    date: int,
    imageData: Option<Bytes>)

  /** A day bucket: the start of the day, the entries of that day and their summed calories. */
  datatype DayModel = DayModel(date: int, entries: seq<FoodModel>, totalCalories: int)

  /** The store's uniqueness constraint on `id`. */
  ghost predicate UniqueIds(store: seq<FoodModel>)
  {
    forall i, j :: 0 <= i < j < |store| ==> store[i].id != store[j].id
  }

  /** No entry of the store carries `id`. */
  ghost predicate FreshId(store: seq<FoodModel>, id: Uuid)
  {
    forall i :: 0 <= i < |store| ==> store[i].id != id
  }
}
