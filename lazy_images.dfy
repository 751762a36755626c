/**
 * initializeLazyLoading: every `img[data-src]` is observed; when one intersects, its
 * data-src is copied into src, the class `lazy` is dropped and the image is unobserved,
 * so no later batch can load it again.
 */
module LazyImages {

  /** One IntersectionObserverEntry delivered to the image observer. */
  datatype ImageEntry = ImageEntry(image: nat, intersecting: bool)

  /** The images one callback loads, in entry order (the intersecting entries). */
  function LoadedBy(entries: seq<ImageEntry>): seq<nat> {
    if |entries| == 0 then []
    else
      var n := |entries| - 1;
      LoadedBy(entries[..n]) + (if entries[n].intersecting then [entries[n].image] else [])
  }

  /** The same images as a set: the ones the callback unobserves. */
  function LoadedSet(entries: seq<ImageEntry>): set<nat> {
    if |entries| == 0 then {}
    else
      var n := |entries| - 1;
      LoadedSet(entries[..n]) + (if entries[n].intersecting then {entries[n].image} else {})
  }

  lemma {:induction false} LoadedSetHoldsLoadedBy(entries: seq<ImageEntry>, k: nat)
    ensures k in LoadedSet(entries) <==> k in LoadedBy(entries)
  {
    if |entries| > 0 {
      LoadedSetHoldsLoadedBy(entries[..|entries| - 1], k);
    }
  }

  /** Handling entry i extends what the entries before it loaded by that entry's image, if it intersects. */
  lemma BatchStep(entries: seq<ImageEntry>, i: nat)
    requires i < |entries|
    ensures LoadedBy(entries[..i + 1])
            == LoadedBy(entries[..i]) + (if entries[i].intersecting then [entries[i].image] else [])
    ensures LoadedSet(entries[..i + 1])
            == LoadedSet(entries[..i]) + (if entries[i].intersecting then {entries[i].image} else {})
  {
    assert entries[..i + 1][..i] == entries[..i];
  }

  /** The indices 0 .. n-1 of n images. */
  function AllImages(n: nat): (r: set<nat>)
    ensures forall k: nat :: k in r <==> k < n
  {
    if n == 0 then {} else AllImages(n - 1) + {n - 1}
  }

  /** An image is loaded by a batch exactly when some entry for it intersects. */
  lemma {:induction false} LoadedByMeansIntersecting(entries: seq<ImageEntry>, k: nat)
    ensures k in LoadedBy(entries) <==> exists i :: 0 <= i < |entries| && entries[i] == ImageEntry(k, true)
  {
    if |entries| > 0 {
      var n := |entries| - 1;
      LoadedByMeansIntersecting(entries[..n], k);
      if exists i :: 0 <= i < n && entries[..n][i] == ImageEntry(k, true) {
        var i :| 0 <= i < n && entries[..n][i] == ImageEntry(k, true);
        assert entries[i] == ImageEntry(k, true);
      }
      if exists i :: 0 <= i < |entries| && entries[i] == ImageEntry(k, true) {
        var i :| 0 <= i < |entries| && entries[i] == ImageEntry(k, true);
        if i < n {
          assert entries[..n][i] == ImageEntry(k, true);
        }
      }
    }
  }

  /** A batch of entries for observed images loads nothing from a list of unobserved ones. */
  lemma FreshLoads(entries: seq<ImageEntry>, observed: set<nat>, loads: seq<nat>)
    requires forall i :: 0 <= i < |entries| ==> entries[i].image in observed
    requires forall k :: k in loads ==> k !in observed
    ensures forall k :: k in LoadedBy(entries) ==> k !in loads
  {
    forall k | k in LoadedBy(entries)
      ensures k !in loads
    {
      LoadedByMeansIntersecting(entries, k);
    }
  }

  class ImageLoader {
    /** The data-src attribute of each `img[data-src]`, in document order. */
    const dataSrc: seq<string>
    /** The src attribute of each image. */
    var src: seq<string>
    /** Which images have the class `lazy`. */
    var lazy: seq<bool>
    /** The images the observer still watches. */
    var observed: set<nat>
    /** Every image the observer has loaded, in order. */
    var loads: seq<nat>

    /** A loaded image is no longer observed, so no later batch can deliver it. */
    predicate Valid()
      reads this
    {
      |src| == |dataSrc| && |lazy| == |dataSrc|
      && (forall k :: k in observed ==> k < |dataSrc|)
      && (forall k :: k in loads ==> k < |dataSrc| && k !in observed)
    }

    /** Every image starts observed. */
    constructor (dataSrc: seq<string>, src: seq<string>, lazy: seq<bool>)
      requires |src| == |dataSrc| && |lazy| == |dataSrc|
      ensures Valid() && this.dataSrc == dataSrc && this.src == src && this.lazy == lazy
      ensures observed == AllImages(|dataSrc|) && loads == []
    {
      this.dataSrc := dataSrc;
      this.src := src;
      this.lazy := lazy;
      observed := AllImages(|dataSrc|);
      loads := [];
    }

    /**
     * The observer callback. The browser only delivers entries for images it still
     * observes, so no image loaded by an earlier batch is loaded again.
     */
    method OnIntersect(entries: seq<ImageEntry>)
      requires Valid()
      requires forall i :: 0 <= i < |entries| ==> entries[i].image in observed
      modifies this`src, this`lazy, this`observed, this`loads
      ensures Valid()
      ensures loads == old(loads) + LoadedBy(entries)
      ensures forall k :: k in LoadedBy(entries) ==> k !in old(loads)
      ensures observed == old(observed) - LoadedSet(entries)
      ensures forall k :: 0 <= k < |src| ==>
                src[k] == (if k in LoadedSet(entries) then dataSrc[k] else old(src[k]))
      ensures forall k :: 0 <= k < |lazy| ==>
                lazy[k] == (if k in LoadedSet(entries) then false else old(lazy[k]))
    {
      var index := 0;
      while index < |entries|
        invariant Valid() && 0 <= index <= |entries|
        invariant loads == old(loads) + LoadedBy(entries[..index])
        invariant observed == old(observed) - LoadedSet(entries[..index])
        invariant forall k :: 0 <= k < |src| ==>
                    src[k] == (if k in LoadedSet(entries[..index]) then dataSrc[k] else old(src[k]))
        invariant forall k :: 0 <= k < |lazy| ==>
                    lazy[k] == (if k in LoadedSet(entries[..index]) then false else old(lazy[k]))
      {
        var entry := entries[index];
        BatchStep(entries, index);
        if entry.intersecting {
          var img := entry.image;
          assert img in old(observed) && img < |dataSrc|;
          src := src[img := dataSrc[img]];
          lazy := lazy[img := false];
          observed := observed - {img};
          loads := loads + [img];
        }
        index := index + 1;
      }
      assert entries[..index] == entries;
      FreshLoads(entries, old(observed), old(loads));
    }
  }
}
