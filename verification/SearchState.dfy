/** The variables of a search in progress. */
module SearchState {
  import opened Names
  import opened DependencyGraph

  /** The lists and sets that the nested `visit` closes over. */
  class Search {
    var order: seq<Name>
    var visiting: set<Name>
    var visited: set<Name>

    constructor ()
      ensures order == [] && visiting == {} && visited == {}
    {
      order, visiting, visited := [], {}, {};
    }
  }

  /** Between visits, the visited names are exactly those of a dependencies-first order. */
  ghost predicate Ready(g: Graph, s: Search)
    reads s
  {
    s.visited == Elems(s.order) && s.visiting !! Elems(s.order) && DepsFirst(g, s.order)
  }
}
