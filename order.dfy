/**
 * The sort keys of the ranking code compared the way Python compares tuples:
 * field by field, the first unequal field deciding. _genre_sort_key and the key of
 * the user's top-genre choice are triples (number, count, text); _movie_sort_key adds
 * the movie id as a fourth field.
 */
module Order {
  import opened Text

  /** A key (primary, secondary, name); smaller keys sort first. */
  datatype RankKey = RankKey(primary: real, secondary: int, name: string)

  predicate RankLt(a: RankKey, b: RankKey) {
    || a.primary < b.primary
    || (a.primary == b.primary && a.secondary < b.secondary)
    || (a.primary == b.primary && a.secondary == b.secondary && StrLt(a.name, b.name))
  }

  /** A movie key: a rank key followed by the movie id. */
  datatype MovieKey = MovieKey(rank: RankKey, id: int)

  predicate MovieKeyLt(a: MovieKey, b: MovieKey) {
    RankLt(a.rank, b.rank) || (a.rank == b.rank && a.id < b.id)
  }

  lemma RankLtIrreflexive(a: RankKey)
    ensures !RankLt(a, a)
  {
    StrLtIrreflexive(a.name);
  }

  lemma RankLtTransitive(a: RankKey, b: RankKey, c: RankKey)
    requires RankLt(a, b) && RankLt(b, c)
    ensures RankLt(a, c)
  {
    if a.primary == b.primary == c.primary && a.secondary == b.secondary == c.secondary {
      StrLtTransitive(a.name, b.name, c.name);
    }
  }

  /** Transitivity stated without a precondition, for use where the premises may not hold. */
  lemma RankLtChain(a: RankKey, b: RankKey, c: RankKey)
    ensures RankLt(a, b) && RankLt(b, c) ==> RankLt(a, c)
  {
    if RankLt(a, b) && RankLt(b, c) {
      RankLtTransitive(a, b, c);
    }
  }

  /** Two different rank keys are ordered one way or the other. */
  lemma RankLtTotal(a: RankKey, b: RankKey)
    requires a != b
    ensures RankLt(a, b) || RankLt(b, a)
  {
    if a.primary == b.primary && a.secondary == b.secondary {
      StrLtTotal(a.name, b.name);
    }
  }

  lemma MovieKeyLtIrreflexive(a: MovieKey)
    ensures !MovieKeyLt(a, a)
  {
    RankLtIrreflexive(a.rank);
  }

  lemma MovieKeyLtTransitive(a: MovieKey, b: MovieKey, c: MovieKey)
    requires MovieKeyLt(a, b) && MovieKeyLt(b, c)
    ensures MovieKeyLt(a, c)
  {
    if RankLt(a.rank, b.rank) && RankLt(b.rank, c.rank) {
      RankLtTransitive(a.rank, b.rank, c.rank);
    }
  }

  lemma MovieKeyLtTotal(a: MovieKey, b: MovieKey)
    requires a != b
    ensures MovieKeyLt(a, b) || MovieKeyLt(b, a)
  {
    if a.rank != b.rank {
      RankLtTotal(a.rank, b.rank);
    }
  }
}
