/** The namespace filter behind the cache: which namespaces the configured selector admits
    (internal/discovery/namespace_filter.go). Listings of namespaces are inputs. */
module NamespaceFilter {
  import opened RawData

  /** The namespaces a selector lists; None when it cannot be parsed or listing fails. */
  type Listing = Option<seq<string>>

  /** The configuration with what its selectors list: none, by labels, or by expressions. */
  datatype Selection = Unrestricted | ByLabels(listing: Listing) | ByExpressions(listings: seq<Listing>)

  method ContainsNamespace(namespace: string, listed: seq<string>) returns (r: bool)
    ensures r <==> namespace in listed
  {
    for i := 0 to |listed|
      invariant namespace !in listed[..i]
    {
      if listed[i] == namespace {
        return true;
      }
      assert listed[..i + 1] == listed[..i] + [listed[i]];
    }
    assert listed[..|listed|] == listed;
    return false;
  }

  predicate Lists(listing: Listing, namespace: string) {
    listing.Some? && namespace in listing.value
  }

  /** A failed listing admits everything; otherwise the namespace has to be listed, by every
      expression before the first that fails. */
  predicate Allowed(s: Selection, namespace: string) {
    match s
    case Unrestricted => true
    case ByLabels(listing) => listing.None? || namespace in listing.value
    case ByExpressions(listings) =>
      forall i :: 0 <= i < |listings| && (forall j :: 0 <= j < i ==> listings[j].Some?) ==>
                    listings[i].None? || namespace in listings[i].value
  }

  /** NamespaceFilter.IsAllowed */
  method IsAllowed(s: Selection, namespace: string) returns (r: bool)
    ensures r == Allowed(s, namespace)
  {
    match s {
      case Unrestricted => r := true;
      case ByLabels(listing) =>
        if listing.None? {
          return true;
        }
        r := ContainsNamespace(namespace, listing.value);
      case ByExpressions(listings) => r := MatchExpressions(listings, namespace);
    }
  }

  method MatchExpressions(listings: seq<Listing>, namespace: string) returns (r: bool)
    ensures r == Allowed(ByExpressions(listings), namespace)
  {
    for i := 0 to |listings|
      invariant forall j :: 0 <= j < i ==> Lists(listings[j], namespace)
    {
      if listings[i].None? {
        return true;
      }
      var listed := ContainsNamespace(namespace, listings[i].value);
      if !listed {
        return false;
      }
    }
    return true;
  }

  /** The expressions in order: the first that fails to list admits, the first that lists without
      the namespace rejects, and none left admits. One expression decides as labels do. */
  lemma AllowedStepwise(first: Listing, rest: seq<Listing>, namespace: string)
    ensures Allowed(ByExpressions([]), namespace)
    ensures Allowed(ByExpressions([first] + rest), namespace) <==>
            Allowed(ByLabels(first), namespace) && (first.None? || Allowed(ByExpressions(rest), namespace))
    ensures Allowed(ByLabels(first), namespace) <==> first.None? || namespace in first.value
  {
    var all := [first] + rest;
    if Allowed(ByExpressions(all), namespace) && first.Some? {
      assert all[0].None? || namespace in all[0].value;
      AllowedRest(first, rest, namespace);
    }
    if first.None? || (namespace in first.value && Allowed(ByExpressions(rest), namespace)) {
      forall i | 0 <= i < |all| && (forall j :: 0 <= j < i ==> all[j].Some?)
        ensures all[i].None? || namespace in all[i].value
      {
        if i > 0 {
          assert all[0].Some?;
          assert forall j :: 0 <= j < i - 1 ==> rest[j] == all[j + 1];
          assert all[i] == rest[i - 1];
        }
      }
    }
  }

  lemma AllowedRest(first: Listing, rest: seq<Listing>, namespace: string)
    requires first.Some? && Allowed(ByExpressions([first] + rest), namespace)
    ensures Allowed(ByExpressions(rest), namespace)
  {
    var all := [first] + rest;
    forall i | 0 <= i < |rest| && (forall j :: 0 <= j < i ==> rest[j].Some?)
      ensures rest[i].None? || namespace in rest[i].value
    {
      assert forall j :: 0 <= j < i + 1 ==> all[j] == if j == 0 then first else rest[j - 1];
      assert all[i + 1] == rest[i];
    }
  }

  /** Something is selected, and it was listed. */
  predicate Selects(s: Selection) {
    match s
    case Unrestricted => false
    case ByLabels(listing) => listing.Some?
    case ByExpressions(listings) => listings != [] && forall i :: 0 <= i < |listings| ==> listings[i].Some?
  }

  /** Namespaces have names. */
  predicate Named(s: Selection) {
    match s
    case Unrestricted => true
    case ByLabels(listing) => !Lists(listing, "")
    case ByExpressions(listings) => forall i :: 0 <= i < |listings| ==> !Lists(listings[i], "")
  }

  /** A selector that was listed never admits the empty namespace. */
  lemma EmptyNamespaceRejected(s: Selection)
    requires Selects(s) && Named(s)
    ensures !Allowed(s, "")
  {
    if s.ByExpressions? {
      assert !Lists(s.listings[0], "") && s.listings[0].Some?;
    }
  }
}
