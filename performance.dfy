/**
 * The performance optimizer: lazy images that take their real source when
 * they come into view, and the preload hints for the critical resources.
 */
module Performance {
  import opened Dom

  /** The source a lazy image ends up with: `img.dataset.src || img.src`. */
  function LoadedSrc(dataSrc: map<ElemId, string>, img: ElemId, src: string): (r: string)
    ensures r == src || (img in dataSrc && r == dataSrc[img] && r != "")
    ensures src == "" ==> (r != "" <==> img in dataSrc && dataSrc[img] != "")
  {
    if img in dataSrc && dataSrc[img] != "" then dataSrc[img] else src
  }

  /** Loading is idempotent: a second swap changes nothing. */
  lemma LoadedSrcIdempotent(dataSrc: map<ElemId, string>, img: ElemId, src: string)
    ensures LoadedSrc(dataSrc, img, LoadedSrc(dataSrc, img, src)) == LoadedSrc(dataSrc, img, src)
    ensures img in dataSrc && dataSrc[img] != "" ==> LoadedSrc(dataSrc, img, src) == dataSrc[img]
    ensures (img !in dataSrc || dataSrc[img] == "") ==> LoadedSrc(dataSrc, img, src) == src
  {
  }

  class LazyImageLoader {
    /** The `img[loading="lazy"]` elements. */
    const images: set<ElemId>
    /** Their `data-src` attributes, where present. */
    const dataSrc: map<ElemId, string>
    /** Every image's `src`. */
    var src: map<ElemId, string>
    /** Images carrying the `lazy` class. */
    var lazy: set<ElemId>
    /** Images the observer still watches. */
    var observed: set<ElemId>

    /** `setupLazyLoading`: observe every lazy image, when the browser has IntersectionObserver. */
    constructor (images: set<ElemId>, dataSrc: map<ElemId, string>, src: map<ElemId, string>, lazy: set<ElemId>,
                 observerSupported: bool)
      ensures this.images == images && this.dataSrc == dataSrc && this.src == src && this.lazy == lazy
      ensures observed == if observerSupported then images else {}
    {
      this.images := images;
      this.dataSrc := dataSrc;
      this.src := src;
      this.lazy := lazy;
      observed := if observerSupported then images else {};
    }

    /** The observer callback: each intersecting image loads, loses `lazy` and is unobserved. */
    method OnIntersect(entries: seq<Entry>)
      requires forall i :: 0 <= i < |entries| ==> entries[i].target in src
      modifies this`src, this`lazy, this`observed
      ensures src.Keys == old(src.Keys)
      ensures forall img :: img in src ==>
                src[img] == if img in IntersectingTargets(entries) then LoadedSrc(dataSrc, img, old(src[img])) else old(src[img])
      ensures lazy == old(lazy) - IntersectingTargets(entries)
      ensures observed == old(observed) - IntersectingTargets(entries)
    {
      var i := 0;
      while i < |entries|
        invariant 0 <= i <= |entries|
        invariant src.Keys == old(src.Keys)
        invariant forall img :: img in src ==>
                    src[img] == if img in IntersectingTargets(entries[..i]) then LoadedSrc(dataSrc, img, old(src[img])) else old(src[img])
        invariant lazy == old(lazy) - IntersectingTargets(entries[..i])
        invariant observed == old(observed) - IntersectingTargets(entries[..i])
      {
        var entry := entries[i];
        assert entries[..i + 1][..i] == entries[..i];
        if entry.isIntersecting {
          var img := entry.target;
          LoadedSrcIdempotent(dataSrc, img, old(src[img]));
          src := src[img := LoadedSrc(dataSrc, img, src[img])];
          lazy := lazy - {img};
          observed := observed - {img};
        }
        i := i + 1;
      }
      assert entries[..i] == entries;
    }
  }

  // ----- preload hints -----

  /** A `<link rel="preload" crossorigin="anonymous">` with its `href` and `as` destination. */
  datatype PreloadLink = PreloadLink(href: string, destination: string)

  const StylesheetUrl: string := "/css/styles.css"
  const FontStylesheetUrl: string := "https://fonts.googleapis.com/css2?family=Inter:wght@400;600;700&display=swap"
  const CriticalResources: seq<string> := [StylesheetUrl, FontStylesheetUrl]

  predicate EndsWith(s: string, suffix: string)
  {
    |suffix| <= |s| && s[|s| - |suffix|..] == suffix
  }

  /** The `as` value: `style` for a resource ending in `.css`, `font` for anything else. */
  function PreloadDestination(resource: string): (d: string)
    ensures d == "style" || d == "font"
    ensures d == "style" <==> |resource| >= 4 && resource[|resource| - 4..] == ".css"
  {
    if EndsWith(resource, ".css") then "style" else "font"
  }

  /**
   * The two critical resources: the site stylesheet is preloaded as a style,
   * and the Google Fonts stylesheet URL, which does not end in `.css`, as a font.
   */
  lemma CriticalDestinations()
    ensures PreloadDestination(CriticalResources[0]) == "style"
    ensures PreloadDestination(CriticalResources[1]) == "font"
  {
    var font := FontStylesheetUrl;
    assert font[|font| - 1] == 'p';
    assert font[|font| - 4..][3] == 'p';
  }

  /** `setupPreloading`: append one preload link per resource to the document head, in order. */
  method SetupPreloading(head: seq<PreloadLink>, resources: seq<string>) returns (newHead: seq<PreloadLink>)
    ensures |newHead| == |head| + |resources| && newHead[..|head|] == head
    ensures forall i :: 0 <= i < |resources| ==>
              newHead[|head| + i].href == resources[i] &&
              (newHead[|head| + i].destination == "style" <==> EndsWith(resources[i], ".css")) &&
              (newHead[|head| + i].destination == "font" <==> !EndsWith(resources[i], ".css"))
  {
    newHead := head;
    for i := 0 to |resources|
      invariant |newHead| == |head| + i && newHead[..|head|] == head
      invariant forall k :: 0 <= k < i ==> newHead[|head| + k] == PreloadLink(resources[k], PreloadDestination(resources[k]))
    {
      var resource := resources[i];
      newHead := newHead + [PreloadLink(resource, PreloadDestination(resource))];
    }
  }
}
