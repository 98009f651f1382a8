/**
 * The in-page anchor listener (script.js, every `a[href^="#"]`): `#` and the empty
 * href fall through to the browser; otherwise, if `document.querySelector(href)` finds
 * a target, the default is prevented and a smooth scroll is requested to the target's
 * `offsetTop` less the navbar's height and a 20 pixel margin. The browser still clamps
 * that position to the scrollable range. The lookup is a parameter giving the found
 * element's `offsetTop`.
 */
module AnchorScroll {
  import opened Common

  const NavbarMargin := 20

  datatype Action = NotIntercepted | ScrollTo(top: int)

  function OnAnchorClick(href: string, find: string -> Option<int>, navbarHeight: int): (r: Action)
    ensures href == "#" || href == "" ==> r == NotIntercepted
    ensures r.ScrollTo? <==> href != "#" && href != "" && find(href).Some?
    ensures r.ScrollTo? ==> r.top + navbarHeight + NavbarMargin == find(href).value
  {
    if href == "#" || href == "" then NotIntercepted
    else match find(href)
      case None => NotIntercepted
      case Some(targetTop) => ScrollTo(targetTop - navbarHeight - NavbarMargin)
  }
}
