/**
 * Scroll-spy: which navigation section is highlighted for a scroll position.
 * At the bottom of the page it is `contact`; otherwise the first section, in
 * the order of the handler's list (about, education, experience, projects,
 * skills, contact), which is not the order the sections appear on the page,
 * whose element is present and whose band (shifted up by the offset) contains
 * the scroll position; when none does, the highlight stays.
 */
module ScrollSpy {
  import opened Wrappers

  datatype Section = About | Education | Experience | Projects | Skills | Contact

  /** The order in which the handler tries the sections. */
  const Order: seq<Section> := [About, Education, Experience, Projects, Skills, Contact]

  const Offset := 150

  /** Slack, in pixels, for the bottom-of-page test. */
  const BottomSlack := 2

  /** An element's `offsetTop` and `offsetHeight`. */
  datatype Box = Box(offsetTop: int, offsetHeight: int)

  /** `window.scrollY`, `window.innerHeight` and `document.body.offsetHeight`. */
  datatype Viewport = Viewport(scrollY: int, innerHeight: int, bodyHeight: int)

  /** The section elements present in the document, by id. */
  type Layout = map<Section, Box>

  function Rank(s: Section): (k: nat)
    ensures k < |Order| && Order[k] == s
  {
    match s
    case About => 0
    case Education => 1
    case Experience => 2
    case Projects => 3
    case Skills => 4
    case Contact => 5
  }

  predicate AtBottom(v: Viewport)
  {
    v.innerHeight + v.scrollY >= v.bodyHeight - BottomSlack
  }

  predicate InBand(v: Viewport, b: Box)
  {
    var top := b.offsetTop - Offset;
    top <= v.scrollY < top + b.offsetHeight
  }

  /** Section `s` has an element and the scroll position lies in its band. */
  predicate Hit(v: Viewport, layout: Layout, s: Section)
  {
    s in layout && InBand(v, layout[s])
  }

  /** Index of the first section of `sections` that is hit. */
  function FirstHit(v: Viewport, layout: Layout, sections: seq<Section>): (r: Option<nat>)
    ensures r.Some? ==> r.value < |sections| && Hit(v, layout, sections[r.value])
    ensures r.Some? ==> forall j :: 0 <= j < r.value ==> !Hit(v, layout, sections[j])
    ensures r.None? <==> forall j :: 0 <= j < |sections| ==> !Hit(v, layout, sections[j])
  {
    if sections == [] then None
    else if Hit(v, layout, sections[0]) then Some(0)
    else match FirstHit(v, layout, sections[1..])
      case None => None
      case Some(k) => Some(k + 1)
  }

  /** The section `handleScroll` activates; `None` leaves the highlight as it was. */
  function SelectSection(v: Viewport, layout: Layout): (r: Option<Section>)
    ensures AtBottom(v) ==> r == Some(Contact)
    ensures !AtBottom(v) && r.Some? ==>
      Hit(v, layout, r.value) && forall s :: Rank(s) < Rank(r.value) ==> !Hit(v, layout, s)
    ensures !AtBottom(v) ==> (r.None? <==> forall s :: !Hit(v, layout, s))
  {
    if AtBottom(v) then Some(Contact)
    else match FirstHit(v, layout, Order)
      case None =>
        assert forall s :: !Hit(v, layout, s) by {
          forall s ensures !Hit(v, layout, s) {
            assert Order[Rank(s)] == s;
          }
        }
        None
      case Some(k) => Some(Order[k])
  }
}
