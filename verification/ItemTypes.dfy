/** The table of item types, and what creating an item makes of its type. */
module ItemTypes {
  /** The ids of the types that there are, and of those whose items are containers. */
  datatype Types = Types(known: set<int>, containers: set<int>)

  /** The ids that `CreateItem` replaces: worn rings and boots become their unworn kind. */
  function Created(id: nat): nat {
    if 2210 <= id <= 2212 then id - 3
    else if id == 2215 || id == 2216 then id - 2
    else if 2202 <= id <= 2206 then id - 37
    else if id == 2640 then 6132
    else if id == 6301 then 6300
    else id
  }
}
