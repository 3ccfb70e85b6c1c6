/**
 * The home page search: the packages whose name, description or category
 * name contains the query, ignoring case, and the list the search overlay
 * shows.
 */
module HomeSearch {
  import opened Text
  import opened Seqs

  /** A package as the home page fetches it, with its category's name filled in. */
  datatype ShownPackage = ShownPackage(PackageName: string, PackageDesc: string, CategoryName: string)

  /** The filter's callback: the lowered query occurs in one of the three lowered fields. */
  predicate Matches(p: ShownPackage, query: string) {
    var q := ToLower(query);
    Contains(ToLower(p.PackageName), q) || Contains(ToLower(p.PackageDesc), q) || Contains(ToLower(p.CategoryName), q)
  }

  /** `filteredPackagesList`. */
  function FilterPackages(packages: seq<ShownPackage>, query: string): (r: seq<ShownPackage>)
    ensures |r| <= |packages|
    decreases |packages|
  {
    if packages == [] then []
    else (if Matches(packages[0], query) then [packages[0]] else []) + FilterPackages(packages[1..], query)
  }

  /** The overlay's list: every package for an empty query, the filtered ones otherwise. */
  function OverlayList(packages: seq<ShownPackage>, query: string): seq<ShownPackage> {
    if query == "" then packages else FilterPackages(packages, query)
  }

  /** The overlay shows "No packages found" for a non-empty query that matches nothing. */
  predicate ShowsNoResults(packages: seq<ShownPackage>, query: string) {
    query != "" && |FilterPackages(packages, query)| == 0
  }

  // ---------------------------------------------------------------------------
  // Properties
  // ---------------------------------------------------------------------------

  /** A package is kept exactly when it is in the list and matches the query. */
  lemma {:induction false} FilterMembers(packages: seq<ShownPackage>, query: string)
    ensures forall p :: p in FilterPackages(packages, query) <==> p in packages && Matches(p, query)
    decreases |packages|
  {
    if packages != [] {
      FilterMembers(packages[1..], query);
      assert packages == [packages[0]] + packages[1..];
    }
  }

  /** The result keeps the list's order: it is a subsequence of it. */
  lemma {:induction false} FilterKeepsOrder(packages: seq<ShownPackage>, query: string)
    ensures IsSubsequence(FilterPackages(packages, query), packages)
    decreases |packages|
  {
    if packages != [] {
      FilterKeepsOrder(packages[1..], query);
      var rest := FilterPackages(packages[1..], query);
      if Matches(packages[0], query) {
        assert FilterPackages(packages, query)[1..] == rest;
      } else {
        assert FilterPackages(packages, query) == rest;
        assert rest == [] || IsSubsequence(rest, packages[1..]);
      }
    }
  }

  /** The empty query is contained in every field, so it keeps every package. */
  lemma {:induction false} EmptyQueryKeepsAll(packages: seq<ShownPackage>)
    ensures FilterPackages(packages, "") == packages
    decreases |packages|
  {
    if packages != [] {
      ContainsEmpty(ToLower(packages[0].PackageName));
      EmptyQueryKeepsAll(packages[1..]);
      assert packages == [packages[0]] + packages[1..];
    }
  }

  /** The search ignores the case of the query: lowering it first changes nothing. */
  lemma {:induction false} FilterIgnoresQueryCase(packages: seq<ShownPackage>, query: string)
    ensures FilterPackages(packages, ToLower(query)) == FilterPackages(packages, query)
    decreases |packages|
  {
    ToLowerIdempotent(query);
    if packages != [] {
      FilterIgnoresQueryCase(packages[1..], query);
    }
  }

  /**
   * Since the empty query keeps everything, the overlay's choice between the
   * full and the filtered list always shows the filtered list.
   */
  lemma OverlayIsFilter(packages: seq<ShownPackage>, query: string)
    ensures OverlayList(packages, query) == FilterPackages(packages, query)
  {
    if query == "" {
      EmptyQueryKeepsAll(packages);
    }
  }

  /** "No packages found" is shown exactly when a non-empty query matches no package. */
  lemma NoResultsIffNothingMatches(packages: seq<ShownPackage>, query: string)
    ensures ShowsNoResults(packages, query) <==> query != "" && forall p | p in packages :: !Matches(p, query)
  {
    FilterMembers(packages, query);
    if query != "" && |FilterPackages(packages, query)| != 0 {
      assert FilterPackages(packages, query)[0] in FilterPackages(packages, query);
    }
  }
}
