/**
 * The `DOMContentLoaded` pass over `document.querySelectorAll('img')` (script.js):
 * every image after the first three that has no `loading` attribute gets
 * `loading="lazy"`. An image is represented by its attribute map, the list by an array
 * updated in place.
 */
module LazyImages {

  const LoadingAttr := "loading"
  const LazyValue := "lazy"

  type Attrs = map<string, string>

  /** The loop's test: `index > 2 && !img.hasAttribute('loading')`. */
  predicate GetsLazy(index: nat, a: Attrs) {
    index > 2 && LoadingAttr !in a
  }

  /** The whole pass, as a function of the images' attributes before it. */
  function LazyPass(s: seq<Attrs>): (r: seq<Attrs>)
    ensures |r| == |s|
    ensures forall i :: 0 <= i < |s| && (i <= 2 || LoadingAttr in s[i]) ==> r[i] == s[i]
    ensures forall i :: 3 <= i < |s| ==> LoadingAttr in r[i]
    ensures forall i :: 3 <= i < |s| && LoadingAttr !in s[i] ==> r[i][LoadingAttr] == LazyValue
    ensures forall i, k :: 0 <= i < |s| && k != LoadingAttr ==>
      (k in r[i] <==> k in s[i]) && (k in s[i] ==> r[i][k] == s[i][k])
  {
    seq(|s|, i requires 0 <= i < |s| => if GetsLazy(i, s[i]) then s[i][LoadingAttr := LazyValue] else s[i])
  }

  /** Running the pass a second time changes nothing. */
  lemma LazyPassIdempotent(s: seq<Attrs>)
    ensures LazyPass(LazyPass(s)) == LazyPass(s)
  {
    var r := LazyPass(s);
    var r2 := LazyPass(r);
    forall i | 0 <= i < |s|
      ensures r2[i] == r[i]
    {
      if i > 2 {
        assert LoadingAttr in r[i];
      }
    }
  }

  /** The `forEach` over the images, setting the attribute in place. */
  method LazyLoad(images: array<Attrs>)
    modifies images
    ensures images[..] == LazyPass(old(images[..]))
  {
    ghost var before := images[..];
    var index := 0;
    while index < images.Length
      invariant 0 <= index <= images.Length
      invariant forall i :: 0 <= i < index ==> images[i] == LazyPass(before)[i]
      invariant forall i :: index <= i < images.Length ==> images[i] == before[i]
    {
      if index > 2 && LoadingAttr !in images[index] {
        images[index] := images[index][LoadingAttr := LazyValue];
      }
      index := index + 1;
    }
  }
}
