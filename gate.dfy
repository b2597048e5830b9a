/** `query_ready`, the gate that enables the "Submit Query" button. Tk calls
    it from each entry's key validator with the edited widget and the text
    the edit would leave in it, before the edit is applied, so every other
    field is read from the form as it stands. */
module Gate {
  import opened Wrappers
  import opened Text
  import opened Query

  /** The entries of the search form. */
  datatype Widget = Entry | FilterState | LatEntry1 | LonEntry1 | LatEntry2 | LonEntry2 | FilterElevation

  predicate IsCoordinate(w: Widget) {
    w == LatEntry1 || w == LonEntry1 || w == LatEntry2 || w == LonEntry2
  }

  /** `len(t) > 0` */
  predicate Filled(t: string) { |t| > 0 }

  /** `len(t) > 0 and t != "-"`: a value that is more than a bare minus. */
  predicate Given(t: string) { |t| > 0 && t != "-" }

  /** The text a widget holds. */
  function FieldOf(f: Form, w: Widget): string {
    match w
    case Entry => f.entry
    case FilterState => f.filterState
    case LatEntry1 => f.latEntry1
    case LonEntry1 => f.lonEntry1
    case LatEntry2 => f.latEntry2
    case LonEntry2 => f.lonEntry2
    case FilterElevation => f.filterElevation
  }

  /** The form with the text of one widget replaced. */
  function SetField(f: Form, w: Widget, t: string): (g: Form)
    ensures FieldOf(g, w) == t
    ensures forall v :: v != w ==> FieldOf(g, v) == FieldOf(f, v)
    ensures g.boundingBox == f.boundingBox && g.latLogic == f.latLogic
    ensures g.lonLogic == f.lonLogic && g.elevLogic == f.elevLogic
  {
    match w
    case Entry => f.(entry := t)
    case FilterState => f.(filterState := t)
    case LatEntry1 => f.(latEntry1 := t)
    case LonEntry1 => f.(lonEntry1 := t)
    case LatEntry2 => f.(latEntry2 := t)
    case LonEntry2 => f.(lonEntry2 := t)
    case FilterElevation => f.(filterElevation := t)
  }

  /** Point mode with some coordinate entry non-empty, as the non-coordinate
      branches of the gate test it. */
  predicate PointFilled(f: Form) {
    !f.boundingBox && (Filled(f.latEntry1) || Filled(f.lonEntry1))
  }

  /** Box mode with all four coordinate entries non-empty, as the
      non-coordinate branches of the gate test it. */
  predicate BoxFilled(f: Form) {
    f.boundingBox && Filled(f.latEntry1) && Filled(f.lonEntry1) && Filled(f.latEntry2) && Filled(f.lonEntry2)
  }

  /** The coordinate branch with the toggle on: the edited corner value and
      the three other values are all more than a bare minus. */
  predicate BoxEditReady(w: Widget, change: string, f: Form) {
    (w == LatEntry1 && Given(change) && Given(f.latEntry2) && Given(f.lonEntry1) && Given(f.lonEntry2))
    || (w == LatEntry2 && Given(change) && Given(f.latEntry1) && Given(f.lonEntry1) && Given(f.lonEntry2))
    || (w == LonEntry1 && Given(change) && Given(f.latEntry1) && Given(f.latEntry2) && Given(f.lonEntry2))
    || (w == LonEntry2 && Given(change) && Given(f.latEntry1) && Given(f.latEntry2) && Given(f.lonEntry1))
  }

  /** `query_ready(widget, change)` evaluated on the form `f` as it stood
      before the edit; one disjunct per edited widget, as in the source.
      A state edit to one or to more than two characters closes the gate.
      Editing the description, the elevation, or the state to zero or two
      characters opens it exactly when the edited form is filled. A
      coordinate edit opens it exactly when the edited form is ready; the
      second corner's entries only accept edits with the toggle on. */
  function QueryReady(w: Widget, change: string, f: Form): (ready: bool)
    ensures w == FilterState && (|change| == 1 || |change| > 2) ==> !ready
    ensures w == Entry || w == FilterElevation || (w == FilterState && |change| != 1 && |change| <= 2) ==>
      (ready <==> FormFilled(SetField(f, w, change)))
    ensures IsCoordinate(w) && ((w == LatEntry2 || w == LonEntry2) ==> f.boundingBox) ==>
      (ready <==> Ready(SetField(f, w, change)))
  {
    (w == Entry
      && (|change| > 0 || |f.filterState| == 2 || Given(f.filterElevation) || PointFilled(f) || BoxFilled(f)))
    || (w == FilterState
      && (|change| == 0 || |change| == 2)
      && (|change| == 2 || |f.entry| > 0 || Given(f.filterElevation) || PointFilled(f) || BoxFilled(f)))
    || (IsCoordinate(w)
      && (|f.entry| > 0 || |f.filterState| == 2 || Given(f.filterElevation)
          || (!f.boundingBox
              && (Given(change)
                  || (w == LatEntry1 && Given(f.lonEntry1))
                  || (w == LonEntry1 && Given(f.latEntry1))))
          || (f.boundingBox && BoxEditReady(w, change, f))))
    || (w == FilterElevation
      && (Given(change) || |f.entry| > 0 || |f.filterState| == 2 || PointFilled(f) || BoxFilled(f)))
  }

  /** The gate as the non-coordinate branches evaluate it, on a whole form. */
  predicate FormFilled(f: Form) {
    |f.entry| > 0 || |f.filterState| == 2 || Given(f.filterElevation) || PointFilled(f) || BoxFilled(f)
  }

  /** Readiness as a function of the whole form alone: some criterion that
      `search` turns into a condition, a bare minus counting as absent. It
      is stricter than the filled test of the non-coordinate branches, and
      agrees with it where no coordinate entry holds a bare minus. */
  function Ready(f: Form): (r: bool)
    ensures r ==> FormFilled(f)
    ensures f.latEntry1 != "-" && f.lonEntry1 != "-" && f.latEntry2 != "-" && f.lonEntry2 != "-" ==>
      (r <==> FormFilled(f))
  {
    |f.entry| > 0 || |f.filterState| == 2 || Given(f.filterElevation)
    || (!f.boundingBox && (Given(f.latEntry1) || Given(f.lonEntry1)))
    || (f.boundingBox && Given(f.latEntry1) && Given(f.lonEntry1) && Given(f.latEntry2) && Given(f.lonEntry2))
  }

  /** With every entry empty the gate stays closed, whichever widget is
      edited back to empty. */
  lemma EmptyFormNeverReady(w: Widget, f: Form)
    requires forall v :: FieldOf(f, v) == ""
    ensures !QueryReady(w, "", f)
  {
    assert FieldOf(f, Entry) == "" && FieldOf(f, FilterState) == "" && FieldOf(f, FilterElevation) == "";
    assert FieldOf(f, LatEntry1) == "" && FieldOf(f, LonEntry1) == "";
    assert FieldOf(f, LatEntry2) == "" && FieldOf(f, LonEntry2) == "";
  }

  /** Readiness is exactly "the search has a condition to run", for a form
      whose state entry holds at most two characters, as its validator keeps it. */
  lemma ReadyIffClauses(f: Form)
    requires Parsable(f) && |f.filterState| <= 2
    ensures Ready(f) <==> Clauses(Normalize(f)) != []
  {
    var c := Normalize(f);
    CoordinatesReady(f);
    assert FrontClauses(c) == [] <==> |f.entry| == 0 && |f.filterState| < 2;
    assert ElevClauses(c) == [] <==> f.filterElevation == "";
    assert Given(f.filterElevation) <==> f.filterElevation != "";
  }

  lemma CoordinatesReady(f: Form)
    requires Parsable(f)
    ensures (!f.boundingBox && (Given(f.latEntry1) || Given(f.lonEntry1)))
      || (f.boundingBox && Given(f.latEntry1) && Given(f.lonEntry1) && Given(f.latEntry2) && Given(f.lonEntry2))
      <==> CoordClauses(Normalize(f)) != []
  {
    NormalizeCoordinates(f);
  }

  /** The gate opens on a form `search` finds no condition in: a bare minus
      in a latitude entry counts as filled when the description is edited,
      but reads as absent. */
  lemma GateAdmitsEmptyQuery()
    ensures var f := Form("", "", "-", "", "", "", "", false, AtLeast, AtLeast, AtMost);
      QueryReady(Entry, "", f) && Parsable(f) && !Ready(f) && Clauses(Normalize(f)) == []
  {
    var f := Form("", "", "-", "", "", "", "", false, AtLeast, AtLeast, AtMost);
    ReadyIffClauses(f);
  }

  /** An elevation of a bare minus opens the gate when another criterion is
      present, although `int("-")` then fails in `search`. */
  lemma DashElevationPassesGate()
    ensures var f := Form("abc", "", "", "", "", "", "", false, AtLeast, AtLeast, AtMost);
      QueryReady(FilterElevation, "-", f) && !ElevParses("-")
  {
    assert Strip("-") == "-";
    assert !DigitRun("-"[1..]);
  }
}
