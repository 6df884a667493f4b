/** FavoritesManager: the user's favourite locations, kept as a location list
    under the key "favorites". */
module FavoritesManager {
  import opened Geo
  import opened ClientLocationLists

  const FavoritesKey: string := "favorites"

  /** The favourites as GetFavorites reads them from a user data bag. */
  function Favorites(values: map<string, seq<Location>>): seq<Location> {
    StoredList(values, FavoritesKey)
  }

  /** GetFavorites: the stored favourites, empty when none were ever added. */
  method GetFavorites(data: UserData) returns (favorites: seq<Location>)
    ensures FavoritesKey in data.values ==> favorites == data.values[FavoritesKey]
    ensures FavoritesKey !in data.values ==> favorites == []
  {
    favorites := GetList(data, FavoritesKey);
  }

  /** AddToFavorites: appends value to the favourites unconditionally; every
      other user data entry is left as it was. */
  method AddToFavorites(data: UserData, value: Location)
    modifies data
    ensures Favorites(data.values) == Favorites(old(data.values)) + [value]
    ensures forall k :: k != FavoritesKey ==> (k in data.values <==> k in old(data.values))
    ensures forall k :: k != FavoritesKey && k in data.values ==> data.values[k] == old(data.values)[k]
  {
    AddToList(data, FavoritesKey, value);
  }
}
