/** Tables of pairs whose pairs are unique, as the primary keys of the join tables make them; a
    conflicting insert does nothing. */
module JoinTables {

  type Pairs = set<(string, string)>

  /** What is joined to `key`. */
  function Column(rows: Pairs, key: string): set<string> {
    set r | r in rows && r.0 == key :: r.1
  }
}
