/** The application object: the search form's entries and options, the
    "Submit Query" button state and the results shown, with the operations
    that change them — an edit of one entry (its key validator and the gate),
    the state entry's upper-casing, a search, and re-sorting the results. */
module Finder {
  import opened Wrappers
  import opened Text
  import opened Catalog
  import opened Validation
  import opened Query
  import opened Gate
  import opened Results

  /** Whether an entry's key validator keeps the proposed text. */
  predicate Accepts(w: Widget, t: string) {
    match w
    case Entry => true
    case FilterState => StateValidation(t)
    case LatEntry1 => LatitudeValidation(t)
    case LatEntry2 => LatitudeValidation(t)
    case LonEntry1 => LongitudeValidation(t)
    case LonEntry2 => LongitudeValidation(t)
    case FilterElevation => ElevValidation(t)
  }

  /** Whether the validator consults the gate: the description, state and
      elevation validators always do, the coordinate ones only for text they keep. */
  predicate GateCalled(w: Widget, accepted: bool) {
    w == Entry || w == FilterState || w == FilterElevation || accepted
  }

  /** Every entry holds text its validator accepts. */
  predicate FormValid(f: Form) {
    StateValidation(f.filterState)
    && LatitudeValidation(f.latEntry1) && LongitudeValidation(f.lonEntry1)
    && LatitudeValidation(f.latEntry2) && LongitudeValidation(f.lonEntry2)
    && ElevValidation(f.filterElevation)
  }

  /** An accepted edit keeps the form valid. */
  lemma AcceptedEditKeepsValid(f: Form, w: Widget, t: string)
    requires FormValid(f) && Accepts(w, t)
    ensures FormValid(SetField(f, w, t))
  {
  }

  /** In a valid form every coordinate entry is one `search` can read; only
      the elevation entry can hold text `int()` rejects. */
  lemma ValidFormParsable(f: Form)
    requires FormValid(f) && ElevParses(f.filterElevation)
    ensures Parsable(f)
  {
  }

  /** `make_state_uppercase`'s result: non-empty text that is not already
      upper case is replaced by its upper-case form. */
  function Uppercased(t: string): (r: string)
    ensures |r| == |t|
    ensures HasNoLower(r) || r == t
    ensures forall i :: 0 <= i < |t| ==> UpperChar(r[i]) == UpperChar(t[i])
    ensures |t| > 0 && !IsUpper(t) ==> r == ToUpper(t)
  {
    ToUpperNoLower(t);
    if |t| > 0 && !IsUpper(t) then ToUpper(t) else t
  }

  lemma UppercasedIdempotent(t: string)
    ensures Uppercased(Uppercased(t)) == Uppercased(t)
  {
    if |t| > 0 && !IsUpper(t) {
      ToUpperIdempotent(t);
    }
  }

  /** Empty and already upper-case text is left alone. */
  lemma UppercasedKeeps(t: string)
    requires t == "" || IsUpper(t)
    ensures Uppercased(t) == t
  {
  }

  /** Upper-casing a state code keeps it a state code. */
  lemma UppercasedStateValid(t: string)
    requires StateValidation(t)
    ensures StateValidation(Uppercased(t))
  {
  }

  /** The form after `search` clears a lone state character. */
  function Cleared(f: Form): (g: Form)
    ensures g.filterState == ClearedState(f.filterState)
    ensures g.(filterState := f.filterState) == f
  {
    f.(filterState := ClearedState(f.filterState))
  }

  /** What a search ends in: sqlite ran the statement with those arguments,
      or refused to parse it. */
  datatype Outcome = Ran(statement: string, args: seq<Value>) | Rejected

  /** The statement and arguments `search` hands to sqlite for criteria
      that give a well-formed statement. */
  method Compose(c: Criteria) returns (statement: string, args: seq<Value>)
    requires Consistent(c) && StatementWellFormed(c)
    ensures statement == SourceStatement(c)
    ensures statement == "SELECT * FROM GHCNDaily WHERE " + WhereText(Clauses(c))
    ensures args == ClauseArgs(Clauses(c))
    ensures |args| == CountMarks(statement)
  {
    SourceWhereJoined(c);
    ArgsMatchStatement(c);
    statement := SourceStatement(c);
    args := BuildArgs(c);
  }

  /** The three option menus of the form: the latitude and longitude
      comparisons of a single point, and the elevation comparison. */
  datatype LogicMenu = LatLogic | LonLogic | ElevLogic

  class App {
    /** The texts of the form's entries and its toggle and option settings. */
    var form: Form
    var sortMethod: SortMethod
    var sortDirection: int
    /** Whether the "Submit Query" button is enabled. */
    var submitEnabled: bool
    var results: seq<Station>
    /** The lines of the results listbox. */
    var listing: seq<string>
    /** What the results label says; its text is `CaptionText(resultsLabel)`. */
    var resultsLabel: Caption
    /** The station catalog, in table order. */
    const catalog: seq<Station>
    /** The `REGEXP` function registered with sqlite. */
    const regexp: (string, string) -> bool
    /** Python's `str` of a float, used for the archive size in the listbox. */
    const sizeText: real -> string

    predicate Valid()
      reads this
    {
      FormValid(form)
    }

    /** The application at start-up: every entry empty, the box toggle off,
        latitude ">=", longitude "<=", elevation "<=", the button disabled. */
    constructor(catalog: seq<Station>, regexp: (string, string) -> bool, sizeText: real -> string,
                sortMethod: SortMethod, sortDirection: int)
      ensures Valid()
      ensures form == Form("", "", "", "", "", "", "", false, AtLeast, AtMost, AtMost)
      ensures this.catalog == catalog && this.regexp == regexp && this.sizeText == sizeText
      ensures this.sortMethod == sortMethod && this.sortDirection == sortDirection
      ensures !submitEnabled && results == [] && listing == [] && resultsLabel == Blank
    {
      form := Form("", "", "", "", "", "", "", false, AtLeast, AtMost, AtMost);
      this.sortMethod, this.sortDirection := sortMethod, sortDirection;
      submitEnabled := false;
      results, listing, resultsLabel := [], [], Blank;
      this.catalog, this.regexp, this.sizeText := catalog, regexp, sizeText;
    }

    /** One edit of an entry: its validator runs on the proposed text, calls
        the gate with the form as it stands, and keeps or refuses the edit.
        The second corner's entries are disabled, so not editable, with the
        toggle off. */
    method Edit(w: Widget, proposed: string) returns (accepted: bool)
      modifies this
      requires Valid()
      requires (w == LatEntry2 || w == LonEntry2) ==> form.boundingBox
      ensures Valid()
      ensures accepted == Accepts(w, proposed)
      ensures form == if accepted then SetField(old(form), w, proposed) else old(form)
      ensures submitEnabled ==
        if GateCalled(w, accepted) then QueryReady(w, proposed, old(form)) else old(submitEnabled)
      ensures results == old(results) && listing == old(listing) && resultsLabel == old(resultsLabel)
      ensures sortMethod == old(sortMethod) && sortDirection == old(sortDirection)
    {
      accepted := Accepts(w, proposed);
      if GateCalled(w, accepted) {
        submitEnabled := QueryReady(w, proposed, form);
      }
      if accepted {
        AcceptedEditKeepsValid(form, w, proposed);
        form := SetField(form, w, proposed);
      }
    }

    /** `toggle_2nd_coords`: the box toggle flips, and the gate is consulted
        as for an edit of the first latitude to its own text, which amounts to
        readiness of the whole form. */
    method ToggleBoundingBox()
      modifies this
      requires Valid()
      ensures Valid()
      ensures form == old(form).(boundingBox := !old(form.boundingBox))
      ensures submitEnabled == QueryReady(LatEntry1, form.latEntry1, form)
      ensures submitEnabled == Ready(form)
      ensures results == old(results) && listing == old(listing) && resultsLabel == old(resultsLabel)
      ensures sortMethod == old(sortMethod) && sortDirection == old(sortDirection)
    {
      form := form.(boundingBox := !form.boundingBox);
      assert SetField(form, LatEntry1, form.latEntry1) == form;
      submitEnabled := QueryReady(LatEntry1, form.latEntry1, form);
    }

    /** `make_state_uppercase`, run after each key release in the state entry:
        the entry is emptied and refilled with the upper-case text, each step
        passing through the validator and the gate. */
    method MakeStateUppercase()
      modifies this
      requires Valid()
      ensures Valid()
      ensures form == old(form).(filterState := Uppercased(old(form.filterState)))
      ensures old(form.filterState) != Uppercased(old(form.filterState)) ==>
        submitEnabled == QueryReady(FilterState, Uppercased(old(form.filterState)), old(form).(filterState := ""))
      ensures old(form.filterState) == Uppercased(old(form.filterState)) ==> submitEnabled == old(submitEnabled)
      ensures results == old(results) && listing == old(listing) && resultsLabel == old(resultsLabel)
      ensures sortMethod == old(sortMethod) && sortDirection == old(sortDirection)
    {
      var txt := form.filterState;
      if |txt| > 0 && !IsUpper(txt) {
        UppercasedStateValid(txt);
        var emptied := Edit(FilterState, "");
        var refilled := Edit(FilterState, ToUpper(txt));
      }
    }

    /** `query_clear`: every entry is emptied through its validator, the
        second corner's only with the toggle on (a disabled entry ignores the
        delete), and the gate is consulted for an empty description, which
        disables the button. */
    method Clear()
      modifies this
      requires Valid()
      ensures Valid()
      ensures form == old(form).(entry := "", filterState := "", latEntry1 := "", lonEntry1 := "",
        latEntry2 := if old(form.boundingBox) then "" else old(form.latEntry2),
        lonEntry2 := if old(form.boundingBox) then "" else old(form.lonEntry2),
        filterElevation := "")
      ensures !submitEnabled
      ensures results == old(results) && listing == old(listing) && resultsLabel == old(resultsLabel)
      ensures sortMethod == old(sortMethod) && sortDirection == old(sortDirection)
    {
      EmptyEntry(Entry);
      EmptyEntry(FilterState);
      EmptyEntry(LatEntry1);
      EmptyEntry(LonEntry1);
      if form.boundingBox {
        EmptyEntry(LatEntry2);
        EmptyEntry(LonEntry2);
      }
      EmptyEntry(FilterElevation);
      submitEnabled := QueryReady(Entry, "", form);
    }

    /** `delete(0, END)` on an enabled entry: the empty text, which every
        validator accepts, replaces the entry's text. */
    method EmptyEntry(w: Widget)
      modifies this
      requires Valid()
      requires (w == LatEntry2 || w == LonEntry2) ==> form.boundingBox
      ensures Valid()
      ensures form == SetField(old(form), w, "")
      ensures results == old(results) && listing == old(listing) && resultsLabel == old(resultsLabel)
      ensures sortMethod == old(sortMethod) && sortDirection == old(sortDirection)
    {
      var accepted := Edit(w, "");
    }

    /** A choice in one of the comparison option menus. It only sets the
        menu's variable: no validator and no gate runs. */
    method SetLogic(menu: LogicMenu, s: Sign)
      modifies this
      requires Valid()
      ensures Valid()
      ensures form == match menu
        case LatLogic => old(form).(latLogic := s)
        case LonLogic => old(form).(lonLogic := s)
        case ElevLogic => old(form).(elevLogic := s)
      ensures Ready(form) == Ready(old(form)) && submitEnabled == old(submitEnabled)
      ensures results == old(results) && listing == old(listing) && resultsLabel == old(resultsLabel)
      ensures sortMethod == old(sortMethod) && sortDirection == old(sortDirection)
    {
      match menu
      case LatLogic => form := form.(latLogic := s);
      case LonLogic => form := form.(lonLogic := s);
      case ElevLogic => form := form.(elevLogic := s);
    }

    /** A choice in the "Sort Results By" menu or of a direction: the setting
        is stored and the results re-sorted, relabelled and relisted. */
    method SetSort(m: SortMethod, direction: int)
      modifies this
      ensures sortMethod == m && sortDirection == direction
      ensures results == Sort(m, Descending(direction), old(results))
      ensures listing == Listing(results, sizeText)
      ensures resultsLabel == Matches(|old(results)|, m, direction)
      ensures form == old(form) && submitEnabled == old(submitEnabled)
    {
      sortMethod, sortDirection := m, direction;
      ResortResults();
    }

    /** `resort_results`: the label, then the list sorted by the chosen
        attribute (reversed when the direction is 1), then the listbox refilled
        one line per station. */
    method ResortResults()
      modifies this
      ensures results == Sort(sortMethod, Descending(sortDirection), old(results))
      ensures listing == Listing(results, sizeText)
      ensures resultsLabel == Matches(|old(results)|, sortMethod, sortDirection)
      ensures form == old(form) && submitEnabled == old(submitEnabled)
      ensures sortMethod == old(sortMethod) && sortDirection == old(sortDirection)
    {
      resultsLabel := Matches(|results|, sortMethod, sortDirection);
      var sorted := Sort(sortMethod, Descending(sortDirection), results);
      var lines := FillListbox(sorted, sizeText);
      results, listing := sorted, lines;
    }

    /** The end of a search that ran: the stations found are sorted and
        listed, or the label says there were none; the button is enabled again. */
    method ShowResults(found: seq<Station>)
      modifies this
      requires results == [] && listing == []
      ensures results == Sort(sortMethod, Descending(sortDirection), found)
      ensures listing == Listing(results, sizeText)
      ensures resultsLabel == if found == [] then NoneFound else Matches(|found|, sortMethod, sortDirection)
      ensures submitEnabled
      ensures form == old(form)
      ensures sortMethod == old(sortMethod) && sortDirection == old(sortDirection)
    {
      results := found;
      if |found| > 0 {
        ResortResults();
      } else {
        resultsLabel := NoneFound;
      }
      submitEnabled := true;
    }

    /** The start of `search`: the button is disabled, the results and the
        listbox emptied, and a lone state character cleared, which passes
        through the state validator and so through the gate. */
    method BeginSearch()
      modifies this
      requires Valid()
      ensures Valid()
      ensures form == Cleared(old(form))
      ensures results == [] && listing == [] && resultsLabel == old(resultsLabel)
      ensures submitEnabled == (|old(form.filterState)| == 1 && QueryReady(FilterState, "", old(form)))
      ensures sortMethod == old(sortMethod) && sortDirection == old(sortDirection)
    {
      submitEnabled := false;
      listing := [];
      results := [];
      if |form.filterState| == 1 {
        ghost var before := form;
        var cleared := Edit(FilterState, "");
        assert form == SetField(before, FilterState, "") == Cleared(before);
      } else {
        assert form == Cleared(form);
      }
    }

    /** `search`. After the start above the criteria are read and the
        statement and its arguments built; sqlite refuses a statement with no
        condition or with a leading connector, and otherwise returns the
        matching stations, which are then sorted and listed. */
    method Search() returns (outcome: Outcome)
      modifies this
      requires Valid() && ElevParses(form.filterElevation)
      ensures Valid()
      ensures form == Cleared(old(form))
      ensures outcome.Ran? <==> StatementWellFormed(Normalize(Cleared(old(form))))
      ensures outcome.Ran? ==>
        var c := Normalize(Cleared(old(form)));
        var found := Select(Clauses(c), catalog, regexp);
        && outcome.statement == SourceStatement(c)
        && outcome.statement == "SELECT * FROM GHCNDaily WHERE " + WhereText(Clauses(c))
        && outcome.args == ClauseArgs(Clauses(c))
        && results == Sort(sortMethod, Descending(sortDirection), found)
        && listing == Listing(results, sizeText)
        && resultsLabel == (if found == [] then NoneFound else Matches(|found|, sortMethod, sortDirection))
        && submitEnabled
      ensures outcome.Rejected? ==>
        && results == [] && listing == [] && resultsLabel == old(resultsLabel)
        && submitEnabled == (|old(form.filterState)| == 1 && QueryReady(FilterState, "", old(form)))
      ensures sortMethod == old(sortMethod) && sortDirection == old(sortDirection)
    {
      BeginSearch();
      ValidFormParsable(form);
      var c := Normalize(form);
      if !StatementWellFormed(c) {
        return Rejected;
      }
      var statement, args := Compose(c);
      ShowResults(Select(Clauses(c), catalog, regexp));
      outcome := Ran(statement, args);
    }
  }
}
