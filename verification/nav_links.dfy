/**
 * Active navigation link (the IntersectionObserver callback in js/main.js).
 * A link's state is whether it carries the `active` class; the links are
 * given by their `href` attributes in document order.  Observer wiring and
 * the class-list DOM calls themselves are not modelled.
 */
module NavLinks {
  import opened Wrappers

  /** One IntersectionObserver entry: the observed section's `id` and whether it intersects. */
  datatype Entry = Entry(id: string, isIntersecting: bool)

  /** The `href` a link needs in order to point at the section `id`. */
  function Anchor(id: string): (a: string)
    ensures |a| == |id| + 1 && a[0] == '#' && a[1..] == id
  {
    "#" + id
  }

  /**
   * The inner `navLinks.forEach` for one intersecting section: every link
   * drops `active`, and exactly the links whose `href` is `#id` get it back.
   */
  function Highlight(hrefs: seq<string>, id: string): (active: seq<bool>)
    ensures |active| == |hrefs|
    ensures forall k :: 0 <= k < |hrefs| ==> (active[k] <==> hrefs[k] == Anchor(id))
  {
    if hrefs == [] then [] else [hrefs[0] == Anchor(id)] + Highlight(hrefs[1..], id)
  }

  /** The number of active links. */
  function CountActive(active: seq<bool>): nat
  {
    if active == [] then 0 else (if active[0] then 1 else 0) + CountActive(active[1..])
  }

  predicate Distinct(hrefs: seq<string>) {
    forall a, b :: 0 <= a < b < |hrefs| ==> hrefs[a] != hrefs[b]
  }

  /**
   * With distinct `href`s, one intersecting section leaves exactly one link
   * active when some link points at it, and none otherwise.
   */
  lemma {:induction false} HighlightCount(hrefs: seq<string>, id: string)
    requires Distinct(hrefs)
    ensures CountActive(Highlight(hrefs, id)) == if Anchor(id) in hrefs then 1 else 0
    decreases |hrefs|
  {
    if hrefs != [] {
      var rest := hrefs[1..];
      assert Distinct(rest);
      HighlightCount(rest, id);
      var h := Highlight(hrefs, id);
      assert h[1..] == Highlight(rest, id);
      if hrefs[0] == Anchor(id) {
        assert Anchor(id) !in rest by {
          forall k | 0 <= k < |rest|
            ensures rest[k] != Anchor(id)
          {
            assert rest[k] == hrefs[k + 1];
          }
        }
      } else {
        assert Anchor(id) in hrefs <==> Anchor(id) in rest by {
          assert hrefs == [hrefs[0]] + rest;
        }
      }
    }
  }

  /** One entry of the outer `entries.forEach`: only an intersecting entry changes the links. */
  function Apply(active: seq<bool>, hrefs: seq<string>, e: Entry): (r: seq<bool>)
    ensures e.isIntersecting ==>
      |r| == |hrefs| && forall k :: 0 <= k < |hrefs| ==> (r[k] <==> hrefs[k] == Anchor(e.id))
    ensures !e.isIntersecting ==> r == active
  {
    if e.isIntersecting then Highlight(hrefs, e.id) else active
  }

  /** The callback for a batch of entries, handled in order. */
  function Observe(active: seq<bool>, hrefs: seq<string>, entries: seq<Entry>): (r: seq<bool>)
    ensures |active| == |hrefs| ==> |r| == |hrefs|
    ensures (forall k :: 0 <= k < |entries| ==> !entries[k].isIntersecting) ==> r == active
    decreases |entries|
  {
    if entries == [] then active
    else Apply(Observe(active, hrefs, entries[..|entries| - 1]), hrefs, entries[|entries| - 1])
  }

  /** The `id` of the last intersecting entry of the batch, if there is one. */
  function LastIntersecting(entries: seq<Entry>): (r: Option<string>)
    ensures r.None? <==> forall k :: 0 <= k < |entries| ==> !entries[k].isIntersecting
    ensures r.Some? ==> exists k :: 0 <= k < |entries| && entries[k].isIntersecting && entries[k].id == r.value &&
                                    forall m :: k < m < |entries| ==> !entries[m].isIntersecting
    decreases |entries|
  {
    if entries == [] then None
    else if entries[|entries| - 1].isIntersecting then Some(entries[|entries| - 1].id)
    else LastIntersecting(entries[..|entries| - 1])
  }

  /**
   * After a batch, the link states are those the last intersecting entry
   * set; a batch without an intersecting entry changes nothing.
   */
  lemma {:induction false} ObserveLastWins(active: seq<bool>, hrefs: seq<string>, entries: seq<Entry>)
    ensures Observe(active, hrefs, entries) ==
      match LastIntersecting(entries)
      case None => active
      case Some(id) => Highlight(hrefs, id)
    decreases |entries|
  {
    if entries != [] {
      ObserveLastWins(active, hrefs, entries[..|entries| - 1]);
    }
  }
}
