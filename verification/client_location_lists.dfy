/** ClientLocationListManagerBase: a list of locations kept in the user's
    data bag under a key. Only entries that hold location lists are modelled. */
module ClientLocationLists {
  import opened Geo

  /** The per-user data bag (context.UserData). */
  class UserData {
    var values: map<string, seq<Location>>

    constructor ()
      ensures values == map[]
    {
      values := map[];
    }
  }

  /** The list stored under key, or the empty list when nothing is stored. */
  function StoredList(values: map<string, seq<Location>>, key: string): seq<Location> {
    if key in values then values[key] else []
  }

  /** GetList: what is stored under key; a missing entry reads as an empty
      list, never as an error. */
  method GetList(data: UserData, key: string) returns (list: seq<Location>)
    ensures key in data.values ==> list == data.values[key]
    ensures key !in data.values ==> list == []
  {
    if key in data.values {
      list := data.values[key];
    } else {
      list := [];
    }
  }

  /** AddToList: appends value to the list under key, with no capacity or
      duplicate check, and writes only that entry. */
  method AddToList(data: UserData, key: string, value: Location)
    modifies data
    ensures key in data.values
    ensures data.values[key] == StoredList(old(data.values), key) + [value]
    ensures forall k :: k != key ==> (k in data.values <==> k in old(data.values))
    ensures forall k :: k != key && k in data.values ==> data.values[k] == old(data.values)[k]
  {
    var list := GetList(data, key);
    list := list + [value];
    data.values := data.values[key := list];
  }
}
