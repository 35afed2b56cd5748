/** The query of a request and the edits the handlers make to it (src/utils.rs). */
module Queries {
  import opened Prelude

  /** A multimap: `get` sees the first value of a name. */
  type Query = map<string, seq<string>>

  function Get(q: Query, name: string): Option<string> {
    if name in q && q[name] != [] then Some(q[name][0]) else None
  }

  /** `remove` followed by `insert`. */
  function Put(q: Query, name: string, value: string): Query {
    q[name := [value]]
  }

  function OrElse(a: Option<string>, b: Option<string>): Option<string> {
    if a.Some? then a else b
  }

  /** Iterating over a multimap yields the first value of each name. */
  function Firsts(q: Query): Query {
    map name | name in q && q[name] != [] :: [q[name][0]]
  }

  /** `replace_query`: the request's query becomes `q`, unless its URI does not parse. */
  function Replaced(old': Query, q: Query, uriParses: bool): Query {
    if uriParses then Firsts(q) else old'
  }

  /** `add_query_param_salvo`: the other pairs stay as they are. */
  function Added(q: Query, name: string, value: string, uriParses: bool): Query {
    if uriParses then Put(q, name, value) else q
  }

  /** Dropping later duplicates changes no lookup. */
  lemma FirstsKeepGet(q: Query, name: string)
    ensures Get(Firsts(q), name) == Get(q, name)
  {
  }
}
