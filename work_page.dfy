/** The work page: a slider over four projects whose current slide is
    mirrored in the URL as `?project=<id>`. The page resolves the project
    named in the URL when it loads, rewrites the URL whenever the slide
    changes, moves the slider when the URL names another project, and shows
    a counter such as "02 / 04".

    The slider is seen only through its active index; the router only
    through `location.search`. */
module Work {
  import opened Wrappers
  import opened JsText

  datatype Project = Project(id: int, num: string, category: string, title: string)

  const PROJECTS_DATA: seq<Project> := [
    Project(1, "01", "Full Stack", "E-commerce Online Store and Management Dashboard"),
    Project(2, "02", "Full Stack", "Hand Note - Social Media Platform"),
    Project(3, "03", "Full Stack", "Bank Management Dashboard"),
    Project(4, "04", "Desktop App", "Driver and Vehicle Licensing System")
  ]

  const TOTAL_PROJECTS: nat := |PROJECTS_DATA|

  /** The name of the query parameter that carries the project id. */
  const PARAM: string := "project"

  predicate UniqueIds(ps: seq<Project>) {
    forall i, j :: 0 <= i < j < |ps| ==> ps[i].id != ps[j].id
  }

  /** The projects' ids are 1, 2, 3, 4, in slide order. */
  lemma DataShape()
    ensures TOTAL_PROJECTS == 4
    ensures forall k :: 0 <= k < |PROJECTS_DATA| ==> PROJECTS_DATA[k].id == k + 1
    ensures UniqueIds(PROJECTS_DATA)
  {
  }

  // ---------------------------------------------------------------------
  // Lookups
  // ---------------------------------------------------------------------

  /** `new Map(ps.map(p => [p.id, p]))`: a later entry with the same id
      replaces an earlier one. */
  function MapById(ps: seq<Project>): (m: map<int, Project>)
    ensures m.Keys == set p | p in ps :: p.id
    ensures forall id :: id in m ==> m[id] in ps && m[id].id == id
  {
    if ps == [] then map[]
    else
      var last := ps[|ps| - 1];
      var init := ps[..|ps| - 1];
      var m := MapById(init);
      assert forall p :: p in ps <==> p in init || p == last;
      m[last.id := last]
  }

  /** With distinct ids, the map sends each project's id to that project. */
  lemma {:induction false} MapByIdFinds(ps: seq<Project>, k: nat)
    requires UniqueIds(ps) && k < |ps|
    ensures ps[k].id in MapById(ps) && MapById(ps)[ps[k].id] == ps[k]
  {
    var init := ps[..|ps| - 1];
    if k < |ps| - 1 {
      MapByIdFinds(init, k);
      assert init[k] == ps[k];
      assert ps[|ps| - 1].id != ps[k].id;
    }
  }

  /** `PROJECTS_MAP`. */
  function ProjectsMap(): map<int, Project> {
    MapById(PROJECTS_DATA)
  }

  /** `ps.findIndex(p => p.id === id)`: the first index with that id, or -1. */
  function FindIndexById(ps: seq<Project>, id: int): (r: int)
    ensures -1 <= r < |ps|
    ensures r == -1 <==> forall k :: 0 <= k < |ps| ==> ps[k].id != id
    ensures r >= 0 ==> ps[r].id == id && forall k :: 0 <= k < r ==> ps[k].id != id
  {
    if ps == [] then -1
    else if ps[0].id == id then 0
    else
      var r := FindIndexById(ps[1..], id);
      assert forall k :: 1 <= k < |ps| ==> ps[k] == ps[1..][k - 1];
      if r == -1 then -1 else r + 1
  }

  /** `ps.findIndex(p => p.id.toString() === text)`: ids are compared as
      decimal text, not as numbers. */
  function FindIndexByIdText(ps: seq<Project>, text: string): (r: int)
    ensures -1 <= r < |ps|
    ensures r == -1 <==> forall k :: 0 <= k < |ps| ==> NumberToString(ps[k].id) != text
    ensures r >= 0 ==>
      NumberToString(ps[r].id) == text && forall k :: 0 <= k < r ==> NumberToString(ps[k].id) != text
  {
    if ps == [] then -1
    else if NumberToString(ps[0].id) == text then 0
    else
      var r := FindIndexByIdText(ps[1..], text);
      assert forall k :: 1 <= k < |ps| ==> ps[k] == ps[1..][k - 1];
      if r == -1 then -1 else r + 1
  }

  /** `currentIndex`: the slide of a project. */
  function CurrentIndex(p: Project): int {
    FindIndexById(PROJECTS_DATA, p.id)
  }

  /** Every project's slide is its own position. */
  lemma CurrentIndexOfSlide(k: nat)
    requires k < |PROJECTS_DATA|
    ensures CurrentIndex(PROJECTS_DATA[k]) == k
  {
    DataShape();
  }

  /** Every project is found, on its own slide. */
  lemma CurrentIndexOfProject(p: Project)
    requires p in PROJECTS_DATA
    ensures 0 <= CurrentIndex(p) < |PROJECTS_DATA| && PROJECTS_DATA[CurrentIndex(p)] == p
  {
    var k :| 0 <= k < |PROJECTS_DATA| && PROJECTS_DATA[k] == p;
    CurrentIndexOfSlide(k);
  }

  // ---------------------------------------------------------------------
  // From the URL to a project
  // ---------------------------------------------------------------------

  /** `new URLSearchParams(location.search).get('project')`. */
  function ProjectParam(search: string): Option<string> {
    SearchParamGet(search, PARAM)
  }

  /** A parameter JavaScript treats as truthy: present and non-empty. */
  predicate Truthy(param: Option<string>) {
    param.Some? && param.value != ""
  }

  /** `initialProject`: the project whose id the parameter parses to,
      else the first project. */
  function InitialProject(param: Option<string>): (p: Project)
    ensures p in PROJECTS_DATA
    ensures !Truthy(param) ==> p == PROJECTS_DATA[0]
  {
    if !Truthy(param) then PROJECTS_DATA[0]
    else
      match ParseInt(param.value)
      case None => PROJECTS_DATA[0]
      case Some(n) => if n in ProjectsMap() then ProjectsMap()[n] else PROJECTS_DATA[0]
  }

  /** Whether `parseInt` reads the parameter as the id of a project. */
  predicate ParsesToId(param: Option<string>) {
    Truthy(param) && ParseInt(param.value).Some? && 1 <= ParseInt(param.value).value <= 4
  }

  /** Resolution picks the project whose id `parseInt` reads from the
      parameter, and the first project when the parameter is missing,
      empty, not a number or not an id. */
  lemma InitialProjectSpec(param: Option<string>)
    ensures ParsesToId(param) ==>
      InitialProject(param) == PROJECTS_DATA[ParseInt(param.value).value - 1]
    ensures !ParsesToId(param) ==> InitialProject(param) == PROJECTS_DATA[0]
  {
    DataShape();
    if ParsesToId(param) {
      ProjectsMapFinds(ParseInt(param.value).value - 1);
    } else if Truthy(param) && ParseInt(param.value).Some? {
      var n := ParseInt(param.value).value;
      assert n !in ProjectsMap();
    }
  }

  /** Only the id that `parseInt` reads from a non-empty parameter can
      select a project other than the first. */
  lemma InitialProjectByParse(param: Option<string>)
    ensures InitialProject(param) in PROJECTS_DATA
    ensures InitialProject(param) != PROJECTS_DATA[0] ==>
      Truthy(param) && ParseInt(param.value) == Some(InitialProject(param).id)
  {
    InitialProjectSpec(param);
    DataShape();
  }

  /** A parameter starting with a project's id selects that project;
      `parseInt` ignores a tail that does not start with a digit or letter,
      such as the ".5" of "2.5". */
  lemma InitialProjectOfNumeral(k: nat, rest: string)
    requires k < |PROJECTS_DATA| && (rest == [] || DigitValue(rest[0]).None?)
    ensures InitialProject(Some(NumberToString(PROJECTS_DATA[k].id) + rest)) == PROJECTS_DATA[k]
  {
    var p := PROJECTS_DATA[k];
    var text := NumberToString(p.id) + rest;
    assert Truthy(Some(text));
    ParseIntOfNumeral(p.id, rest);
    ProjectsMapFinds(k);
  }

  /** `PROJECTS_MAP` sends each id to its project. */
  lemma ProjectsMapFinds(k: nat)
    requires k < |PROJECTS_DATA|
    ensures PROJECTS_DATA[k].id in ProjectsMap() && ProjectsMap()[PROJECTS_DATA[k].id] == PROJECTS_DATA[k]
  {
    DataShape();
    MapByIdFinds(PROJECTS_DATA, k);
  }

  // ---------------------------------------------------------------------
  // From a slide to the URL and back
  // ---------------------------------------------------------------------

  /** The `search` part of `/work?project=<id>` for slide `k`. */
  function SlideSearch(k: nat): string
    requires k < |PROJECTS_DATA|
  {
    "?" + PARAM + "=" + NumberToString(PROJECTS_DATA[k].id)
  }

  /** The URL-sync effect: the slide to move to, if the parameter names a
      project (by its id as text) on another slide than the active one.
      `None` also when the slider is not mounted. */
  function SyncTarget(param: Option<string>, active: Option<nat>): (t: Option<nat>)
    ensures t.Some? ==> Truthy(param) && active.Some? && t.value != active.value
    ensures t.Some? ==> t.value < |PROJECTS_DATA| && NumberToString(PROJECTS_DATA[t.value].id) == param.value
  {
    if Truthy(param) && active.Some? then
      var index := FindIndexByIdText(PROJECTS_DATA, param.value);
      if index != -1 && index != active.value then Some(index as nat) else None
    else None
  }

  /** Id text never holds '&', '+' or '='. */
  lemma NumeralIsPlain(n: nat)
    ensures '&' !in NumberToString(n) && '+' !in NumberToString(n)
  {
    var s := NumberToString(n);
    forall i | 0 <= i < |s| ensures s[i] != '&' && s[i] != '+' {
      assert IsDigit(s[i], 10);
    }
  }

  /** The URL written for slide `k` reads back as slide `k`: it resolves to
      that project, and the sync effect leaves a slider on `k` alone and
      moves a slider anywhere else to `k`. */
  lemma SlideRoundTrip(k: nat, j: nat)
    requires k < |PROJECTS_DATA|
    ensures ProjectParam(SlideSearch(k)) == Some(NumberToString(PROJECTS_DATA[k].id))
    ensures InitialProject(ProjectParam(SlideSearch(k))) == PROJECTS_DATA[k]
    ensures SyncTarget(ProjectParam(SlideSearch(k)), Some(k)).None?
    ensures j != k ==> SyncTarget(ProjectParam(SlideSearch(k)), Some(j)) == Some(k)
  {
    DataShape();
    var text := NumberToString(PROJECTS_DATA[k].id);
    NumeralIsPlain(PROJECTS_DATA[k].id);
    SearchParamOfSinglePair(PARAM, text);
    InitialProjectOfNumeral(k, []);
    assert text + [] == text;
    var index := FindIndexByIdText(PROJECTS_DATA, text);
    if index != k {
      NumberToStringInjective(PROJECTS_DATA[index].id, PROJECTS_DATA[k].id);
    }
  }

  /** The two lookups disagree on a zero-padded id: "02" selects the second
      project when the page loads, but the sync effect, which compares
      text, does not recognise it. */
  lemma PaddedIdResolvesButDoesNotSync(j: nat)
    ensures InitialProject(Some("02")) == PROJECTS_DATA[1]
    ensures SyncTarget(Some("02"), Some(j)).None?
  {
    assert Truthy(Some("02"));
    LeadingZero();
    ProjectsMapFinds(1);
    assert PROJECTS_DATA[1].id == 2;
    assert FindIndexByIdText(PROJECTS_DATA, "02") == -1 by {
      DataShape();
      forall k | 0 <= k < |PROJECTS_DATA| ensures NumberToString(PROJECTS_DATA[k].id) != "02" {
        assert NumberToString(PROJECTS_DATA[k].id)[0] != '0';
      }
    }
  }

  lemma LeadingZero()
    ensures ParseInt("02") == Some(2)
  {
    assert TrimStart("02") == "02";
    assert DigitRun("02", 10) == "02";
    assert DigitsValue("02", 10) == 2;
  }

  // ---------------------------------------------------------------------
  // The counter
  // ---------------------------------------------------------------------

  /** `TOTAL_PROJECTS.toString().padStart(2, '0')`. */
  function TotalLabel(): string {
    PadStart(NumberToString(TOTAL_PROJECTS), 2, '0')
  }

  /** The counter: the project's own number over the padded total. */
  function CounterText(p: Project): string {
    p.num + " / " + TotalLabel()
  }

  /** The total reads "04", and every project's number is its id padded to
      two digits, so the counter on slide `k` reads `0<k+1> / 04`. */
  lemma CounterShape(k: nat)
    requires k < |PROJECTS_DATA|
    ensures TotalLabel() == "04"
    ensures PROJECTS_DATA[k].num == PadStart(NumberToString(PROJECTS_DATA[k].id), 2, '0')
    ensures CounterText(PROJECTS_DATA[k]) == ['0', DecimalDigit(k + 1)] + " / 04"
  {
    DataShape();
    assert NumberToString(4) == "4";
    var total := TotalLabel();
    assert |total| == 2 && total[1..] == "4" && total[0] == '0';
    assert total == "04";
    var id := PROJECTS_DATA[k].id;
    assert NumberToString(id) == [DecimalDigit(k + 1)];
    var padded := PadStart(NumberToString(id), 2, '0');
    assert |padded| == 2 && padded[1..] == [DecimalDigit(k + 1)] && padded[0] == '0';
    assert padded == ['0', DecimalDigit(k + 1)];
  }

  // ---------------------------------------------------------------------
  // The page's state
  // ---------------------------------------------------------------------

  class WorkPage {
    var search: string                // `location.search`
    var currentProject: Project
    var slider: Option<nat>           // the mounted slider's active index
    var pendingSlide: Option<nat>     // the slide the mount timer will move to

    ghost predicate Valid()
      reads this
    {
      && currentProject in PROJECTS_DATA
      && (slider.Some? ==> slider.value < |PROJECTS_DATA|)
      && (pendingSlide.Some? ==> pendingSlide.value < |PROJECTS_DATA|)
    }

    /** The first render: the project comes from the URL; no slider yet. */
    constructor (search: string)
      ensures Valid() && this.search == search
      ensures currentProject == InitialProject(ProjectParam(search))
      ensures slider.None? && pendingSlide.None?
    {
      this.search := search;
      currentProject := InitialProject(ProjectParam(search));
      slider := None;
      pendingSlide := None;
    }

    /** `handleSlideChange`: the slider's active slide becomes the current
        project and the URL is replaced by that project's. */
    method HandleSlideChange(activeIndex: nat)
      requires Valid() && activeIndex < |PROJECTS_DATA|
      modifies this
      ensures Valid()
      ensures currentProject == PROJECTS_DATA[activeIndex]
      ensures search == SlideSearch(activeIndex)
      ensures slider == old(slider) && pendingSlide == old(pendingSlide)
    {
      var newProject := PROJECTS_DATA[activeIndex];
      currentProject := newProject;
      search := "?" + PARAM + "=" + NumberToString(newProject.id);
    }

    /** `slideTo(index)`: the slider moves and, when its active index
        changes, reports the change. */
    method SlideTo(index: nat)
      requires Valid() && slider.Some? && index < |PROJECTS_DATA|
      modifies this
      ensures Valid() && slider == Some(index) && pendingSlide == old(pendingSlide)
      ensures old(slider) == Some(index) ==>
        search == old(search) && currentProject == old(currentProject)
      ensures old(slider) != Some(index) ==>
        search == SlideSearch(index) && currentProject == PROJECTS_DATA[index]
    {
      if slider == Some(index) {
        return;
      }
      slider := Some(index);
      HandleSlideChange(index);
    }

    /** `onSwiper`: the slider mounts on its first slide and a timer is set
        to move it to the slide of the project resolved from the URL. */
    method MountSlider()
      requires Valid()
      modifies this
      ensures Valid() && slider == Some(0)
      ensures search == old(search) && currentProject == old(currentProject)
      ensures pendingSlide == Some(CurrentIndex(InitialProject(ProjectParam(search))) as nat)
    {
      slider := Some(0);
      var initial := InitialProject(ProjectParam(search));
      CurrentIndexOfProject(initial);
      var projectIndex := FindIndexById(PROJECTS_DATA, initial.id);
      if projectIndex != -1 {
        pendingSlide := Some(projectIndex as nat);
      }
    }

    /** `goToSlide(index)`, the pagination dots' handler: with no slider
        mounted, `swiperRef?.slideTo` does nothing; otherwise the slider
        moves to `index`. */
    method GoToSlide(index: nat)
      requires Valid() && index < |PROJECTS_DATA|
      modifies this
      ensures Valid() && pendingSlide == old(pendingSlide)
      ensures old(slider).None? ==>
        slider.None? && search == old(search) && currentProject == old(currentProject)
      ensures old(slider).Some? ==> slider == Some(index)
      ensures old(slider) == Some(index) ==>
        search == old(search) && currentProject == old(currentProject)
      ensures old(slider).Some? && old(slider) != Some(index) ==>
        search == SlideSearch(index) && currentProject == PROJECTS_DATA[index]
    {
      if slider.Some? {
        SlideTo(index);
      }
    }

    /** The mount timer fires: the slider moves to the pending slide. */
    method MountTimer()
      requires Valid() && slider.Some? && pendingSlide.Some?
      modifies this
      ensures Valid() && slider == old(pendingSlide) && pendingSlide.None?
      ensures old(slider) != old(pendingSlide) ==>
        search == SlideSearch(old(pendingSlide).value)
        && currentProject == PROJECTS_DATA[old(pendingSlide).value]
      ensures old(slider) == old(pendingSlide) ==>
        search == old(search) && currentProject == old(currentProject)
    {
      var index := pendingSlide.value;
      pendingSlide := None;
      SlideTo(index);
    }

    /** The URL-sync effect: when the URL names a project on another slide,
        the slider moves there, and the page follows. */
    method SyncEffect() returns (target: Option<nat>)
      requires Valid()
      modifies this
      ensures Valid() && target == SyncTarget(ProjectParam(old(search)), old(slider))
      ensures target.None? ==> search == old(search) && currentProject == old(currentProject) && slider == old(slider)
      ensures target.Some? ==>
        slider == target && currentProject == PROJECTS_DATA[target.value]
        && search == SlideSearch(target.value)
      ensures pendingSlide == old(pendingSlide)
    {
      target := SyncTarget(ProjectParam(search), slider);
      if target.Some? {
        SlideTo(target.value);
      }
    }

    /** `slidePrev`: one slide back, nothing before the first slide. */
    method GoToPrevSlide()
      requires Valid()
      modifies this
      ensures Valid() && pendingSlide == old(pendingSlide)
      ensures old(slider).Some? && old(slider).value > 0 ==>
        slider == Some(old(slider).value - 1) && currentProject == PROJECTS_DATA[old(slider).value - 1]
        && search == SlideSearch(old(slider).value - 1)
      ensures (old(slider).None? || old(slider) == Some(0)) ==>
        slider == old(slider) && search == old(search) && currentProject == old(currentProject)
    {
      if slider.Some? && slider.value > 0 {
        SlideTo(slider.value - 1);
      }
    }

    /** `slideNext`: one slide on, nothing after the last slide. */
    method GoToNextSlide()
      requires Valid()
      modifies this
      ensures Valid() && pendingSlide == old(pendingSlide)
      ensures old(slider).Some? && old(slider).value + 1 < |PROJECTS_DATA| ==>
        slider == Some(old(slider).value + 1) && currentProject == PROJECTS_DATA[old(slider).value + 1]
        && search == SlideSearch(old(slider).value + 1)
      ensures (old(slider).None? || old(slider) == Some(|PROJECTS_DATA| - 1)) ==>
        slider == old(slider) && search == old(search) && currentProject == old(currentProject)
    {
      if slider.Some? && slider.value + 1 < |PROJECTS_DATA| {
        SlideTo(slider.value + 1);
      }
    }
  }

  /** A slide change settles at once: after the slider reports its new
      active slide, the URL names the current project, whose slide is the
      active one, and the sync effect that the new URL triggers does
      nothing. */
  method SlideChangeThenSync(page: WorkPage, index: nat) returns (target: Option<nat>)
    requires page.Valid() && page.slider == Some(index) && index < |PROJECTS_DATA|
    modifies page
    ensures target.None?
    ensures page.currentProject == PROJECTS_DATA[index] && page.slider == Some(index)
    ensures InitialProject(ProjectParam(page.search)) == page.currentProject
    ensures CurrentIndex(page.currentProject) == index
  {
    page.HandleSlideChange(index);
    SlideRoundTrip(index, index);
    CurrentIndexOfSlide(index);
    target := page.SyncEffect();
  }
}
