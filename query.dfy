/** The query engine of `search`: the search form read into typed criteria,
    the criteria turned into a list of filter clauses and the argument list
    that fills their `?` placeholders, the SQL text the source assembles for
    them, and the evaluation of the clauses over the station catalog. */
module Query {
  import opened Wrappers
  import opened Text
  import opened Catalog

  /** A comparison chosen in one of the form's option menus. */
  datatype Sign = AtLeast | AtMost

  function SignText(s: Sign): string {
    match s
    case AtLeast => ">="
    case AtMost => "<="
  }

  /** What the search form holds when a query is submitted: the seven entry
      texts, the bounding-box toggle and the three comparison menus. */
  datatype Form = Form(
    entry: string,
    filterState: string,
    latEntry1: string,
    lonEntry1: string,
    latEntry2: string,
    lonEntry2: string,
    filterElevation: string,
    boundingBox: bool,
    latLogic: Sign,
    lonLogic: Sign,
    elevLogic: Sign)

  /** The values `search` reads off the form; `None` stands for Python's `None`. */
  datatype Criteria = Criteria(
    desc: Option<string>,
    countryAbbr: Option<string>,
    bbox: bool,
    lat1Sign: Option<Sign>,
    lat1: Option<int>,
    lon1Sign: Option<Sign>,
    lon1: Option<int>,
    lat2: Option<int>,
    lon2: Option<int>,
    elev: Option<int>,
    elevLogic: Sign)

  // ---------------------------------------------------------------- reading the form

  /** The state/country entry after `search` has cleared a lone character. */
  function ClearedState(s: string): (r: string)
    ensures |r| != 1
    ensures |s| == 1 ==> r == ""
    ensures |s| != 1 ==> r == s
  {
    if |s| == 1 then "" else s
  }

  /** Coordinate text `search` can read: absent ("" or "-") or an integer. */
  predicate CoordParses(t: string) {
    t == "" || t == "-" || ParseInt(t).Some?
  }

  /** Elevation text `search` can read: absent ("") or an integer. */
  predicate ElevParses(t: string) {
    t == "" || ParseInt(t).Some?
  }

  /** Every entry `search` passes to `int()` holds an integer; the second
      corner is read only with the bounding box on. */
  predicate Parsable(f: Form) {
    CoordParses(f.latEntry1) && CoordParses(f.lonEntry1)
    && (f.boundingBox ==> CoordParses(f.latEntry2) && CoordParses(f.lonEntry2))
    && ElevParses(f.filterElevation)
  }

  /** A coordinate entry read by `search`: "" and "-" are absent, never 0. */
  function CoordValue(t: string): (v: Option<int>)
    requires CoordParses(t)
    ensures v.None? <==> t == "" || t == "-"
    ensures v.Some? ==> ParseInt(t) == Some(v.value)
  {
    if t == "" || t == "-" then None else Some(ParseInt(t).value)
  }

  /** The consistency `search` gives its criteria: the per-axis comparisons
      exist exactly in point mode, and the second corner only in box mode. */
  predicate Consistent(c: Criteria) {
    (c.lat1Sign.None? <==> c.bbox) && (c.lon1Sign.None? <==> c.bbox)
    && (!c.bbox ==> c.lat2.None? && c.lon2.None?)
  }

  /** The criteria `search` reads from the form (after clearing a lone state
      character). */
  function Normalize(f: Form): (c: Criteria)
    requires Parsable(f)
    ensures Consistent(c)
    ensures c.bbox == f.boundingBox && c.elevLogic == f.elevLogic
    ensures !f.boundingBox ==> c.lat1Sign == Some(f.latLogic) && c.lon1Sign == Some(f.lonLogic)
    ensures c.desc.Some? <==> f.entry != ""
    ensures c.desc.Some? ==> c.desc.value == f.entry
    ensures c.countryAbbr.Some? <==> |f.filterState| >= 2
    ensures c.countryAbbr.Some? ==> c.countryAbbr.value == ToUpper(f.filterState)
    ensures c.elev.Some? <==> f.filterElevation != ""
    ensures c.elev.Some? ==> ParseInt(f.filterElevation) == Some(c.elev.value)
  {
    var state := ClearedState(f.filterState);
    Criteria(
      desc := if f.entry != "" then Some(f.entry) else None,
      countryAbbr := if |state| > 0 then Some(ToUpper(state)) else None,
      bbox := f.boundingBox,
      lat1Sign := if f.boundingBox then None else Some(f.latLogic),
      lat1 := CoordValue(f.latEntry1),
      lon1Sign := if f.boundingBox then None else Some(f.lonLogic),
      lon1 := CoordValue(f.lonEntry1),
      lat2 := if f.boundingBox then CoordValue(f.latEntry2) else None,
      lon2 := if f.boundingBox then CoordValue(f.lonEntry2) else None,
      elev := if f.filterElevation != "" then Some(ParseInt(f.filterElevation).value) else None,
      elevLogic := f.elevLogic)
  }

  /** In point mode the comparison chosen in each menu reaches the query: a
      given latitude or longitude becomes a condition with that menu's sign. */
  lemma PointSignsReachClauses(f: Form)
    requires Parsable(f) && !f.boundingBox
    ensures CoordValue(f.latEntry1).Some? ==>
      Compare(Latitude, f.latLogic, CoordValue(f.latEntry1).value) in Clauses(Normalize(f))
    ensures CoordValue(f.lonEntry1).Some? ==>
      Compare(Longitude, f.lonLogic, CoordValue(f.lonEntry1).value) in Clauses(Normalize(f))
  {
    var c := Normalize(f);
    assert !BoxComplete(c);
    assert c.lat1 == CoordValue(f.latEntry1) && c.lon1 == CoordValue(f.lonEntry1);
    var lat := if c.lat1.Some? then [Compare(Latitude, f.latLogic, c.lat1.value)] else [];
    var lon := if c.lon1.Some? then [Compare(Longitude, f.lonLogic, c.lon1.value)] else [];
    assert CoordClauses(c) == lat + lon;
    assert Clauses(c) == FrontClauses(c) + (lat + lon) + ElevClauses(c);
  }

  /** Coordinates: "" and "-" are absent rather than zero, an integer entry is
      read as that integer, and the second corner is absent with the toggle off. */
  lemma NormalizeCoordinates(f: Form)
    requires Parsable(f)
    ensures var c := Normalize(f);
      (c.lat1.None? <==> f.latEntry1 in {"", "-"})
      && (c.lon1.None? <==> f.lonEntry1 in {"", "-"})
      && (c.lat1.Some? ==> ParseInt(f.latEntry1) == Some(c.lat1.value))
      && (c.lon1.Some? ==> ParseInt(f.lonEntry1) == Some(c.lon1.value))
      && (!f.boundingBox ==> c.lat2.None? && c.lon2.None?)
      && (f.boundingBox ==> (c.lat2.None? <==> f.latEntry2 in {"", "-"}))
      && (f.boundingBox ==> (c.lon2.None? <==> f.lonEntry2 in {"", "-"}))
  {
  }

  // ---------------------------------------------------------------- clauses

  /** A value bound to a `?` placeholder. */
  datatype Value = TextArg(s: string) | IntArg(i: int)

  datatype Axis = Latitude | Longitude

  /** One condition of the WHERE clause. */
  datatype Clause =
    | NameMatches(pattern: string)               // name REGEXP ?
    | CountryOrState(code: string)               // (country = ? OR state = ?)
    | InBox(lat1: int, lon1: int, lat2: int, lon2: int)  // IN_BBOX(latitude, longitude, ?, ?, ?, ?)
    | Compare(axis: Axis, sign: Sign, bound: int)  // latitude >= ?, longitude <= ?, ...
    | ElevationAtMost(bound: int)                // (elevation > -999 AND elevation <= ?)
    | ElevationAtLeast(bound: int)               // elevation >= ?

  /** How many `?` placeholders a clause's text holds. */
  function Placeholders(cl: Clause): nat {
    match cl
    case NameMatches(_) => 1
    case CountryOrState(_) => 2
    case InBox(_, _, _, _) => 4
    case Compare(_, _, _) => 1
    case ElevationAtMost(_) => 1
    case ElevationAtLeast(_) => 1
  }

  /** The arguments a clause binds, in placeholder order. */
  function Args(cl: Clause): seq<Value> {
    match cl
    case NameMatches(p) => [TextArg(p)]
    case CountryOrState(code) => [TextArg(code), TextArg(code)]
    case InBox(a, b, c, d) => [IntArg(a), IntArg(b), IntArg(c), IntArg(d)]
    case Compare(_, _, v) => [IntArg(v)]
    case ElevationAtMost(v) => [IntArg(v)]
    case ElevationAtLeast(v) => [IntArg(v)]
  }

  function TotalPlaceholders(cls: seq<Clause>): nat {
    if cls == [] then 0 else Placeholders(cls[0]) + TotalPlaceholders(cls[1..])
  }

  function ClauseArgs(cls: seq<Clause>): seq<Value> {
    if cls == [] then [] else Args(cls[0]) + ClauseArgs(cls[1..])
  }

  /** Both corners given and the toggle on: the only case with a box clause. */
  predicate BoxComplete(c: Criteria) {
    c.bbox && c.lat1.Some? && c.lon1.Some? && c.lat2.Some? && c.lon2.Some?
  }

  /** `anycoord`: some coordinate was read, whether or not it forms a clause. */
  predicate AnyCoord(c: Criteria) {
    c.lat1.Some? || c.lat2.Some? || c.lon1.Some? || c.lon2.Some?
  }

  function DescClauses(c: Criteria): seq<Clause> {
    if c.desc.Some? then [NameMatches(c.desc.value)] else []
  }

  function CountryClauses(c: Criteria): seq<Clause> {
    if c.countryAbbr.Some? then [CountryOrState(c.countryAbbr.value)] else []
  }

  function FrontClauses(c: Criteria): seq<Clause> {
    DescClauses(c) + CountryClauses(c)
  }

  function CoordClauses(c: Criteria): seq<Clause> {
    if BoxComplete(c) then [InBox(c.lat1.value, c.lon1.value, c.lat2.value, c.lon2.value)]
    else
      (if c.lat1.Some? && c.lat1Sign.Some? then [Compare(Latitude, c.lat1Sign.value, c.lat1.value)] else [])
      + (if c.lon1.Some? && c.lon1Sign.Some? then [Compare(Longitude, c.lon1Sign.value, c.lon1.value)] else [])
  }

  function ElevClauses(c: Criteria): seq<Clause> {
    if c.elev.Some? then
      [if c.elevLogic == AtMost then ElevationAtMost(c.elev.value) else ElevationAtLeast(c.elev.value)]
    else []
  }

  /** The conditions of the query, in the order the statement lists them:
      description first, elevation last, at most one condition per criterion. */
  function Clauses(c: Criteria): (cls: seq<Clause>)
    ensures |cls| <= 5
    ensures cls == [] <==>
      c.desc.None? && c.countryAbbr.None? && c.elev.None? && !BoxComplete(c)
      && !(c.lat1.Some? && c.lat1Sign.Some?) && !(c.lon1.Some? && c.lon1Sign.Some?)
    ensures c.desc.Some? ==> cls[0] == NameMatches(c.desc.value)
    ensures c.elev.Some? ==>
      cls[|cls| - 1] == if c.elevLogic == AtMost then ElevationAtMost(c.elev.value) else ElevationAtLeast(c.elev.value)
    ensures forall i :: 0 <= i < |cls| && cls[i].InBox? ==> BoxComplete(c)
  {
    FrontClauses(c) + CoordClauses(c) + ElevClauses(c)
  }

  /** The box clause appears only with the toggle on and all four corners given. */
  lemma BoxClauseOnlyWhenComplete(c: Criteria)
    requires Consistent(c)
    ensures (exists i :: 0 <= i < |Clauses(c)| && Clauses(c)[i].InBox?) <==> BoxComplete(c)
  {
    var cls := Clauses(c);
    if BoxComplete(c) {
      assert cls[|FrontClauses(c)|].InBox?;
    }
  }

  /** With the toggle on, the per-axis signs are absent, so an incomplete
      box yields no coordinate condition at all. */
  lemma IncompleteBoxHasNoCoordClause(c: Criteria)
    requires Consistent(c) && c.bbox && !BoxComplete(c)
    ensures CoordClauses(c) == []
    ensures forall i :: 0 <= i < |Clauses(c)| ==> !Clauses(c)[i].InBox? && !Clauses(c)[i].Compare?
  {
  }

  // ---------------------------------------------------------------- arguments

  lemma {:induction false} ClauseArgsAppend(a: seq<Clause>, b: seq<Clause>)
    ensures ClauseArgs(a + b) == ClauseArgs(a) + ClauseArgs(b)
  {
    if a == [] {
      assert a + b == b;
    } else {
      assert (a + b)[1..] == a[1..] + b;
      ClauseArgsAppend(a[1..], b);
    }
  }

  /** Each clause binds as many arguments as it has placeholders, so the whole
      argument list fills the statement's placeholders exactly. */
  lemma {:induction false} ArgsFillPlaceholders(cls: seq<Clause>)
    ensures |ClauseArgs(cls)| == TotalPlaceholders(cls)
  {
    if cls != [] {
      ArgsFillPlaceholders(cls[1..]);
    }
  }

  /** The values of a list of optional fields that are not `None`, in order. */
  function Present(attrs: seq<Option<Value>>): seq<Value> {
    if attrs == [] then []
    else
      var last := attrs[|attrs| - 1];
      Present(attrs[..|attrs| - 1]) + (if last.Some? then [last.value] else [])
  }

  lemma {:induction false} PresentAppend(a: seq<Option<Value>>, b: seq<Option<Value>>)
    ensures Present(a + b) == Present(a) + Present(b)
  {
    if b == [] {
      assert a + b == a;
    } else {
      assert (a + b)[..|a + b| - 1] == a + b[..|b| - 1];
      PresentAppend(a, b[..|b| - 1]);
    }
  }

  function TextOf(v: Option<string>): Option<Value> {
    if v.Some? then Some(TextArg(v.value)) else None
  }

  function IntOf(v: Option<int>): Option<Value> {
    if v.Some? then Some(IntArg(v.value)) else None
  }

  function Ints(xs: seq<int>): seq<Option<Value>> {
    seq(|xs|, i requires 0 <= i < |xs| => Some(IntArg(xs[i])))
  }

  lemma PresentSingle(x: Option<Value>)
    ensures Present([x]) == if x.Some? then [x.value] else []
  {
    assert [x][..0] == [];
  }

  lemma PresentOfInts(xs: seq<int>)
    ensures Present(Ints(xs)) == seq(|xs|, i requires 0 <= i < |xs| => IntArg(xs[i]))
    decreases |xs|
  {
    if xs != [] {
      var ys := xs[..|xs| - 1];
      assert Ints(xs)[..|xs| - 1] == Ints(ys);
      PresentOfInts(ys);
    }
  }

  /** The argument list of `search`: the non-`None` values among desc, the
      country code (twice), the coordinate values and the elevation. */
  method BuildArgs(c: Criteria) returns (args: seq<Value>)
    requires Consistent(c)
    ensures args == ClauseArgs(Clauses(c))
    ensures |args| == TotalPlaceholders(Clauses(c))
  {
    var coordAttrs: seq<int> :=
      if BoxComplete(c) then [c.lat1.value, c.lon1.value, c.lat2.value, c.lon2.value] else [];
    if !c.bbox {
      if c.lat1.Some? { coordAttrs := coordAttrs + [c.lat1.value]; }
      if c.lon1.Some? { coordAttrs := coordAttrs + [c.lon1.value]; }
    }
    var attrs := [TextOf(c.desc), TextOf(c.countryAbbr), TextOf(c.countryAbbr)]
      + Ints(coordAttrs) + [IntOf(c.elev)];
    args := CollectPresent(attrs);
    ArgsOfAttrs(c, coordAttrs);
    ArgsFillPlaceholders(Clauses(c));
  }

  /** The loop that appends every attribute that is not `None` to `args`. */
  method CollectPresent(attrs: seq<Option<Value>>) returns (args: seq<Value>)
    ensures args == Present(attrs)
  {
    args := [];
    for i := 0 to |attrs|
      invariant args == Present(attrs[..i])
    {
      assert attrs[..i + 1][..i] == attrs[..i];
      if attrs[i].Some? {
        args := args + [attrs[i].value];
      }
    }
    assert attrs[..|attrs|] == attrs;
  }

  /** The source's attribute list yields exactly the clauses' arguments. */
  lemma ArgsOfAttrs(c: Criteria, coordAttrs: seq<int>)
    requires Consistent(c)
    requires coordAttrs ==
      if BoxComplete(c) then [c.lat1.value, c.lon1.value, c.lat2.value, c.lon2.value]
      else if c.bbox then []
      else (if c.lat1.Some? then [c.lat1.value] else []) + (if c.lon1.Some? then [c.lon1.value] else [])
    ensures Present([TextOf(c.desc), TextOf(c.countryAbbr), TextOf(c.countryAbbr)]
      + Ints(coordAttrs) + [IntOf(c.elev)]) == ClauseArgs(Clauses(c))
  {
    PresentThree([TextOf(c.desc), TextOf(c.countryAbbr), TextOf(c.countryAbbr)], Ints(coordAttrs), [IntOf(c.elev)]);
    FrontArgs(c);
    PresentOfInts(coordAttrs);
    CoordArgs(c, coordAttrs);
    ElevArgs(c);
    ClauseArgsThree(FrontClauses(c), CoordClauses(c), ElevClauses(c));
  }

  lemma PresentThree(a: seq<Option<Value>>, b: seq<Option<Value>>, e: seq<Option<Value>>)
    ensures Present(a + b + e) == Present(a) + Present(b) + Present(e)
  {
    PresentAppend(a + b, e);
    PresentAppend(a, b);
  }

  lemma ClauseArgsThree(a: seq<Clause>, b: seq<Clause>, e: seq<Clause>)
    ensures ClauseArgs(a + b + e) == ClauseArgs(a) + ClauseArgs(b) + ClauseArgs(e)
  {
    ClauseArgsAppend(a + b, e);
    ClauseArgsAppend(a, b);
  }

  lemma ElevArgs(c: Criteria)
    ensures Present([IntOf(c.elev)]) == ClauseArgs(ElevClauses(c))
  {
    PresentSingle(IntOf(c.elev));
  }

  lemma FrontArgs(c: Criteria)
    ensures Present([TextOf(c.desc), TextOf(c.countryAbbr), TextOf(c.countryAbbr)])
      == ClauseArgs(FrontClauses(c))
  {
    var a := TextOf(c.desc);
    var b := TextOf(c.countryAbbr);
    assert [a, b, b] == [a] + [b] + [b];
    PresentAppend([a] + [b], [b]);
    PresentAppend([a], [b]);
    PresentSingle(a);
    PresentSingle(b);
    ClauseArgsAppend(DescClauses(c), CountryClauses(c));
  }

  lemma CoordArgs(c: Criteria, coordAttrs: seq<int>)
    requires Consistent(c)
    requires coordAttrs ==
      if BoxComplete(c) then [c.lat1.value, c.lon1.value, c.lat2.value, c.lon2.value]
      else if c.bbox then []
      else (if c.lat1.Some? then [c.lat1.value] else []) + (if c.lon1.Some? then [c.lon1.value] else [])
    ensures seq(|coordAttrs|, i requires 0 <= i < |coordAttrs| => IntArg(coordAttrs[i]))
      == ClauseArgs(CoordClauses(c))
  {
    var lat := if c.lat1.Some? && c.lat1Sign.Some? then [Compare(Latitude, c.lat1Sign.value, c.lat1.value)] else [];
    var lon := if c.lon1.Some? && c.lon1Sign.Some? then [Compare(Longitude, c.lon1Sign.value, c.lon1.value)] else [];
    if !BoxComplete(c) {
      ClauseArgsAppend(lat, lon);
    }
  }

  // ---------------------------------------------------------------- statement text

  /** The text `search` writes for one condition, with each `?` placeholder
      written as its own piece. */
  function ClauseText(cl: Clause): string {
    match cl
    case NameMatches(_) => "name REGEXP " + "?" + " "
    case CountryOrState(_) => "(country = " + "?" + " OR state = " + "?" + ") "
    case InBox(_, _, _, _) =>
      "IN_BBOX(latitude, longitude, " + "?" + ", " + "?" + ", " + "?" + ", " + "?" + ") "
    case Compare(axis, sign, _) => AxisText(axis) + SignText(sign) + " " + "?" + " "
    case ElevationAtMost(_) => "(elevation > -999 AND elevation <= " + "?" + ")"
    case ElevationAtLeast(_) => "elevation >= " + "?" + " "
  }

  function AxisText(axis: Axis): string {
    if axis == Latitude then "latitude " else "longitude "
  }

  /** The conditions joined by "AND ": the WHERE text of a well-formed query. */
  function WhereText(cls: seq<Clause>): string {
    JoinAnd(seq(|cls|, i requires 0 <= i < |cls| => ClauseText(cls[i])))
  }

  /** Texts joined by "AND ". */
  function JoinAnd(ts: seq<string>): string {
    if ts == [] then "" else if |ts| == 1 then ts[0] else ts[0] + "AND " + JoinAnd(ts[1..])
  }

  lemma {:induction false} JoinAppend(a: seq<string>, b: seq<string>)
    requires a != [] && b != []
    ensures JoinAnd(a + b) == JoinAnd(a) + "AND " + JoinAnd(b)
  {
    assert (a + b)[0] == a[0];
    if |a| > 1 {
      assert (a + b)[1..] == a[1..] + b;
      JoinAppend(a[1..], b);
    } else {
      assert (a + b)[1..] == b;
    }
  }

  lemma WhereSingle(x: Clause)
    ensures WhereText([x]) == ClauseText(x)
  {
  }

  /** A list of two or more conditions: the first, the connector, the rest. */
  lemma WhereCons(cls: seq<Clause>)
    requires |cls| > 1
    ensures WhereText(cls) == ClauseText(cls[0]) + "AND " + WhereText(cls[1..])
  {
    WhereAppend([cls[0]], cls[1..]);
    assert [cls[0]] + cls[1..] == cls;
  }

  lemma WhereAppend(a: seq<Clause>, b: seq<Clause>)
    requires a != [] && b != []
    ensures WhereText(a + b) == WhereText(a) + "AND " + WhereText(b)
  {
    var ta := seq(|a|, i requires 0 <= i < |a| => ClauseText(a[i]));
    var tb := seq(|b|, i requires 0 <= i < |b| => ClauseText(b[i]));
    assert seq(|a + b|, i requires 0 <= i < |a + b| => ClauseText((a + b)[i])) == ta + tb;
    JoinAppend(ta, tb);
  }

  /** The coordinate part of the statement in point mode, piece by piece as
      the source's seven-field format string writes it. */
  function SourcePointText(c: Criteria): string {
    var lat := c.lat1.Some? && c.lat1Sign.Some?;
    var lon := c.lon1.Some? && c.lon1Sign.Some?;
    (if lat then "latitude " else "")
    + (if lat then SignText(c.lat1Sign.value) + " " else "")
    + (if lat then "? " else "")
    + (if c.lat1.Some? && lon then "AND " else "")
    + (if lon then "longitude " else "")
    + (if lon then SignText(c.lon1Sign.value) + " " else "")
    + (if lon then "? " else "")
  }

  /** The elevation part of the statement, as the source's format string writes it. */
  function SourceElevText(sign: Sign): string {
    (if sign == AtMost then "(" else "") + "elevation "
    + (if sign == AtMost then ">" else SignText(sign)) + " "
    + (if sign == AtMost then "-999" else "?") + " "
    + (if sign == AtMost then "AND elevation " + SignText(sign) + " ?" else "")
    + (if sign == AtMost then ")" else "")
  }

  /** The description and country part of the statement. */
  function SourceFront(c: Criteria): string {
    (if c.desc.Some? then "name REGEXP ? " else "")
    + (if c.desc.Some? && c.countryAbbr.Some? then "AND " else "")
    + (if c.countryAbbr.Some? then "(country = ? OR state = ?) " else "")
  }

  /** The connector before the coordinate part. */
  function CoordConnector(c: Criteria): string {
    if (c.desc.Some? || c.countryAbbr.Some?)
      && ((!c.bbox && (c.lat1.Some? || c.lon1.Some?)) || BoxComplete(c))
    then "AND " else ""
  }

  function SourceCoord(c: Criteria): string {
    if BoxComplete(c) then "IN_BBOX(latitude, longitude, ?, ?, ?, ?) " else SourcePointText(c)
  }

  /** The connector before the elevation part, keyed on `anycoord`. */
  function ElevConnector(c: Criteria): string {
    if c.elev.Some? && (c.desc.Some? || c.countryAbbr.Some? || AnyCoord(c)) then "AND " else ""
  }

  function SourceElev(c: Criteria): string {
    if c.elev.Some? then SourceElevText(c.elevLogic) else ""
  }

  /** The WHERE text exactly as `search` concatenates it, connectors included. */
  function SourceWhere(c: Criteria): string {
    SourceFront(c) + CoordConnector(c) + SourceCoord(c) + ElevConnector(c) + SourceElev(c)
  }

  /** The statement handed to sqlite: the clause list joined by AND, behind
      the dangling connector where the source writes one. */
  function SourceStatement(c: Criteria): (stmt: string)
    ensures Consistent(c) ==>
      stmt == "SELECT * FROM GHCNDaily WHERE " + (if DanglingAnd(c) then "AND " else "") + WhereText(Clauses(c))
  {
    if Consistent(c) then
      SourceWhereShape(c);
      "SELECT * FROM GHCNDaily WHERE " + SourceWhere(c)
    else
      "SELECT * FROM GHCNDaily WHERE " + SourceWhere(c)
  }

  /** The source's connector for the elevation clause tests `anycoord`, which
      counts an incomplete box, rather than whether a coordinate condition
      was written. With nothing before it, the statement gets "AND " alone. */
  predicate DanglingAnd(c: Criteria) {
    c.elev.Some? && c.desc.None? && c.countryAbbr.None? && AnyCoord(c) && CoordClauses(c) == []
  }

  lemma ElevTextAgrees(c: Criteria)
    ensures SourceElev(c) == WhereText(ElevClauses(c))
  {
    if c.elev.Some? {
      var cl := ElevClauses(c)[0];
      assert ElevClauses(c) == [cl];
      if c.elevLogic == AtMost {
        ElevAtMostText(c.elev.value);
      } else {
        ElevAtLeastText(c.elev.value);
      }
    }
  }

  lemma ElevAtMostText(v: int)
    ensures SourceElevText(AtMost) == ClauseText(ElevationAtMost(v))
  {
    assert "(elevation > -999 AND elevation <= ?)"
      == "(" + "elevation " + ">" + " " + "-999" + " " + ("AND elevation " + "<=" + " ?") + ")";
  }

  lemma ElevAtLeastText(v: int)
    ensures SourceElevText(AtLeast) == ClauseText(ElevationAtLeast(v))
  {
    assert "elevation >= ? " == "" + "elevation " + ">=" + " " + "?" + " " + "" + "";
  }

  lemma PointTextAgrees(c: Criteria)
    requires Consistent(c) && !BoxComplete(c)
    ensures SourcePointText(c) == WhereText(CoordClauses(c))
  {
    var lat := c.lat1.Some? && c.lat1Sign.Some?;
    var lon := c.lon1.Some? && c.lon1Sign.Some?;
    if lat && lon {
      PointBothText(c);
    } else if lat {
      PointLatitudeText(c);
    } else if lon {
      PointLongitudeText(c);
    } else {
      assert CoordClauses(c) == [];
    }
  }

  /** A comparison clause, with its sign and placeholder grouped as the
      source's format string writes them. */
  lemma CompareText(axis: Axis, sign: Sign, v: int)
    ensures ClauseText(Compare(axis, sign, v)) == AxisText(axis) + (SignText(sign) + " ") + "? "
  {
    var a, g := AxisText(axis), SignText(sign);
    assert a + g + " " + "?" + " " == a + (g + " ") + "? ";
  }

  lemma PointBothText(c: Criteria)
    requires Consistent(c) && !BoxComplete(c)
    requires c.lat1.Some? && c.lat1Sign.Some? && c.lon1.Some? && c.lon1Sign.Some?
    ensures SourcePointText(c) == WhereText(CoordClauses(c))
  {
    var x := Compare(Latitude, c.lat1Sign.value, c.lat1.value);
    var y := Compare(Longitude, c.lon1Sign.value, c.lon1.value);
    CompareText(Latitude, c.lat1Sign.value, c.lat1.value);
    CompareText(Longitude, c.lon1Sign.value, c.lon1.value);
    assert CoordClauses(c) == [x] + [y];
    WhereAppend([x], [y]);
  }

  lemma PointLatitudeText(c: Criteria)
    requires Consistent(c) && !BoxComplete(c)
    requires c.lat1.Some? && c.lat1Sign.Some? && c.lon1.None?
    ensures SourcePointText(c) == WhereText(CoordClauses(c))
  {
    var x := Compare(Latitude, c.lat1Sign.value, c.lat1.value);
    CompareText(Latitude, c.lat1Sign.value, c.lat1.value);
    assert CoordClauses(c) == [x];
    var t := "latitude " + (SignText(c.lat1Sign.value) + " ") + "? ";
    assert SourcePointText(c) == t + "" + "" + "" + "";
    assert t + "" + "" + "" + "" == t;
  }

  lemma PointLongitudeText(c: Criteria)
    requires Consistent(c) && !BoxComplete(c)
    requires c.lat1.None? && c.lon1.Some? && c.lon1Sign.Some?
    ensures SourcePointText(c) == WhereText(CoordClauses(c))
  {
    var y := Compare(Longitude, c.lon1Sign.value, c.lon1.value);
    CompareText(Longitude, c.lon1Sign.value, c.lon1.value);
    assert CoordClauses(c) == [y];
    var t := "longitude " + (SignText(c.lon1Sign.value) + " ") + "? ";
    assert SourcePointText(c) == "" + "" + "" + "" + t;
    assert "" + "" + "" + "" + t == t;
  }

  lemma FrontTextAgrees(c: Criteria)
    ensures SourceFront(c) == WhereText(FrontClauses(c))
  {
    if c.desc.Some? && c.countryAbbr.Some? {
      FrontBothText(c);
    } else if c.desc.Some? {
      FrontDescText(c);
    } else if c.countryAbbr.Some? {
      FrontCountryText(c);
    } else {
      assert FrontClauses(c) == [];
    }
  }

  lemma NameText(d: string)
    ensures ClauseText(NameMatches(d)) == "name REGEXP ? "
  {
  }

  lemma CountryText(x: string)
    ensures ClauseText(CountryOrState(x)) == "(country = ? OR state = ?) "
  {
  }

  lemma FrontBothText(c: Criteria)
    requires c.desc.Some? && c.countryAbbr.Some?
    ensures SourceFront(c) == WhereText(FrontClauses(c))
  {
    NameText(c.desc.value);
    CountryText(c.countryAbbr.value);
    WhereAppend(DescClauses(c), CountryClauses(c));
  }

  lemma FrontDescText(c: Criteria)
    requires c.desc.Some? && c.countryAbbr.None?
    ensures SourceFront(c) == WhereText(FrontClauses(c))
  {
    NameText(c.desc.value);
    assert FrontClauses(c) == DescClauses(c);
    assert SourceFront(c) == "name REGEXP ? " + "" + "";
    assert "name REGEXP ? " + "" + "" == "name REGEXP ? ";
  }

  lemma FrontCountryText(c: Criteria)
    requires c.desc.None? && c.countryAbbr.Some?
    ensures SourceFront(c) == WhereText(FrontClauses(c))
  {
    CountryText(c.countryAbbr.value);
    assert FrontClauses(c) == CountryClauses(c);
    assert SourceFront(c) == "" + "" + "(country = ? OR state = ?) ";
    assert "" + "" + "(country = ? OR state = ?) " == "(country = ? OR state = ?) ";
  }

  /** Up to the elevation part, the source's text is the joined clause list. */
  lemma FrontCoordAgrees(c: Criteria)
    requires Consistent(c)
    ensures SourceFront(c) + CoordConnector(c) + SourceCoord(c)
      == WhereText(FrontClauses(c) + CoordClauses(c))
  {
    var front, coord := FrontClauses(c), CoordClauses(c);
    FrontTextAgrees(c);
    CoordTextAgrees(c);
    CoordConnectorAgrees(c);
    if front != [] && coord != [] {
      WhereAppend(front, coord);
    } else if front == [] {
      assert front + coord == coord;
      assert "" + "" + WhereText(coord) == WhereText(coord);
    } else {
      assert front + coord == front;
      assert WhereText(front) + "" + "" == WhereText(front);
    }
  }

  lemma CoordTextAgrees(c: Criteria)
    requires Consistent(c)
    ensures SourceCoord(c) == WhereText(CoordClauses(c))
  {
    if !BoxComplete(c) {
      PointTextAgrees(c);
    }
  }

  /** The coordinate connector is written exactly when conditions stand on
      both sides of it. */
  lemma CoordConnectorAgrees(c: Criteria)
    requires Consistent(c)
    ensures CoordConnector(c) == if FrontClauses(c) != [] && CoordClauses(c) != [] then "AND " else ""
  {
  }

  /** The source's statement is the clause list joined by AND, except for the
      dangling connector: "AND " with no condition before it. */
  lemma SourceWhereShape(c: Criteria)
    requires Consistent(c)
    ensures SourceWhere(c) == (if DanglingAnd(c) then "AND " else "") + WhereText(Clauses(c))
  {
    FrontCoordAgrees(c);
    ElevTextAgrees(c);
    var fc := FrontClauses(c) + CoordClauses(c);
    if c.elev.None? {
      ShapeWithoutElevation(c, SourceFront(c) + CoordConnector(c) + SourceCoord(c));
    } else if fc != [] {
      ShapeElevationAfter(c, SourceFront(c) + CoordConnector(c) + SourceCoord(c));
    } else {
      ShapeElevationAlone(c, SourceFront(c) + CoordConnector(c) + SourceCoord(c));
    }
  }

  lemma ShapeWithoutElevation(c: Criteria, x: string)
    requires x == SourceFront(c) + CoordConnector(c) + SourceCoord(c)
    requires x == WhereText(FrontClauses(c) + CoordClauses(c))
    requires c.elev.None?
    ensures SourceWhere(c) == WhereText(Clauses(c)) && !DanglingAnd(c)
  {
    assert ElevClauses(c) == [];
    assert Clauses(c) == FrontClauses(c) + CoordClauses(c);
    assert ElevConnector(c) == "" && SourceElev(c) == "";
    assert SourceWhere(c) == x + "" + "";
    assert x + "" + "" == x;
  }

  lemma ShapeElevationAfter(c: Criteria, x: string)
    requires Consistent(c)
    requires x == SourceFront(c) + CoordConnector(c) + SourceCoord(c)
    requires x == WhereText(FrontClauses(c) + CoordClauses(c))
    requires SourceElev(c) == WhereText(ElevClauses(c))
    requires c.elev.Some? && FrontClauses(c) + CoordClauses(c) != []
    ensures SourceWhere(c) == WhereText(Clauses(c)) && !DanglingAnd(c)
  {
    var fc := FrontClauses(c) + CoordClauses(c);
    assert CoordClauses(c) != [] ==> AnyCoord(c);
    assert ElevConnector(c) == "AND ";
    WhereAppend(fc, ElevClauses(c));
  }

  lemma ShapeElevationAlone(c: Criteria, x: string)
    requires x == SourceFront(c) + CoordConnector(c) + SourceCoord(c)
    requires x == WhereText(FrontClauses(c) + CoordClauses(c))
    requires SourceElev(c) == WhereText(ElevClauses(c))
    requires c.elev.Some? && FrontClauses(c) + CoordClauses(c) == []
    ensures SourceWhere(c) == (if DanglingAnd(c) then "AND " else "") + WhereText(Clauses(c))
  {
    assert x == "";
    assert FrontClauses(c) + CoordClauses(c) + ElevClauses(c) == ElevClauses(c);
    assert ElevConnector(c) == if DanglingAnd(c) then "AND " else "";
    assert SourceWhere(c) == x + ElevConnector(c) + SourceElev(c);
  }

  /** Without the dangling connector, the source's statement is exactly the
      clause list joined by AND. */
  lemma SourceWhereJoined(c: Criteria)
    requires Consistent(c) && !DanglingAnd(c)
    ensures SourceWhere(c) == WhereText(Clauses(c))
  {
    SourceWhereShape(c);
  }

  /** The statement sqlite can parse: some condition and no dangling connector. */
  predicate StatementWellFormed(c: Criteria) {
    Clauses(c) != [] && !DanglingAnd(c)
  }

  /** An example of the dangling connector: box toggle on, only the first
      latitude, an elevation bound. */
  lemma DanglingAndExample()
    ensures var c := Criteria(None, None, true, None, Some(10), None, None, None, None, Some(100), AtLeast);
      Consistent(c) && DanglingAnd(c)
      && SourceWhere(c) == "AND elevation >= ? "
      && WhereText(Clauses(c)) == "elevation >= ? "
  {
    var c := Criteria(None, None, true, None, Some(10), None, None, None, None, Some(100), AtLeast);
    SourceWhereShape(c);
  }

  /** The joined clause list leads with its first condition, never with a
      connector: the statement text the AND-joined list gives is the one the
      dangling connector above departs from. */
  lemma WhereLeadsWithCondition(cls: seq<Clause>)
    requires cls != []
    ensures ClauseText(cls[0]) <= WhereText(cls)
    ensures !("AND " <= WhereText(cls))
  {
    if |cls| > 1 {
      WhereCons(cls);
    }
    ClauseTextNotAnd(cls[0]);
  }

  /** No condition's text starts with "AND ". */
  lemma ClauseTextNotAnd(cl: Clause)
    ensures |ClauseText(cl)| >= 4 && ClauseText(cl)[..4] != "AND "
  {
    var t := ClauseText(cl);
    match cl
    case NameMatches(_) => assert t[0] == 'n';
    case CountryOrState(_) => assert t[0] == '(';
    case InBox(_, _, _, _) =>
      var p := "IN_BBOX(latitude, longitude, ";
      assert p[0] == 'I';
      assert t[0] == p[0];
    case Compare(axis, _, _) => assert t[0] == AxisText(axis)[0] == 'l';
    case ElevationAtMost(_) =>
      var p := "(elevation > -999 AND elevation <= ";
      assert p[0] == '(';
      assert t[0] == p[0];
    case ElevationAtLeast(_) => assert t[0] == 'e';
  }

  /** With no condition at all, the statement ends in "WHERE ". */
  lemma EmptyWhere(c: Criteria)
    requires Consistent(c) && Clauses(c) == []
    ensures SourceStatement(c) == "SELECT * FROM GHCNDaily WHERE "
  {
    SourceWhereShape(c);
  }

  // ---------------------------------------------------------------- placeholders

  /** The number of `?` placeholders in a text. */
  function CountMarks(s: string): nat {
    if s == [] then 0 else (if s[0] == '?' then 1 else 0) + CountMarks(s[1..])
  }

  lemma {:induction false} CountMarksAppend(a: string, b: string)
    ensures CountMarks(a + b) == CountMarks(a) + CountMarks(b)
  {
    if a == [] {
      assert a + b == b;
    } else {
      assert (a + b)[1..] == a[1..] + b;
      CountMarksAppend(a[1..], b);
    }
  }

  lemma {:induction false} CountMarksNone(s: string)
    requires '?' !in s
    ensures CountMarks(s) == 0
  {
    if s != [] {
      assert s[0] in s;
      assert forall x :: x in s[1..] ==> x in s;
      CountMarksNone(s[1..]);
    }
  }

  lemma CountMarksOne()
    ensures CountMarks("?") == 1
  {
    assert "?"[1..] == [];
  }

  /** The fixed pieces of the statement hold no placeholder. */
  lemma FrontPiecesPlain()
    ensures '?' !in "name REGEXP " && '?' !in " " && '?' !in "(country = "
    ensures '?' !in " OR state = " && '?' !in ") "
  {
  }

  lemma CoordPiecesPlain()
    ensures '?' !in "IN_BBOX(latitude, longitude, " && '?' !in ", " && '?' !in ") "
    ensures '?' !in "latitude " && '?' !in "longitude " && '?' !in ">=" && '?' !in "<=" && '?' !in " "
  {
  }

  lemma ElevPiecesPlain()
    ensures '?' !in "(elevation > -999 AND elevation <= " && '?' !in ")"
    ensures '?' !in "elevation >= " && '?' !in " "
  {
  }

  lemma ConnectorPiecesPlain()
    ensures '?' !in "AND " && '?' !in "SELECT * FROM GHCNDaily WHERE "
  {
  }

  /** Text with no placeholder on either side of one. */
  lemma OneMark(a: string, z: string)
    requires CountMarks(a) == 0 && CountMarks(z) == 0
    ensures CountMarks(a + "?" + z) == 1
  {
    CountMarksOne();
    CountMarksAppend(a + "?", z);
    CountMarksAppend(a, "?");
  }

  lemma TwoMarks(a: string, m: string, z: string)
    requires CountMarks(a) == 0 && CountMarks(m) == 0 && CountMarks(z) == 0
    ensures CountMarks(a + "?" + m + "?" + z) == 2
  {
    OneMark(a, m);
    OneMark("", z);
    assert "" + "?" + z == "?" + z;
    CountMarksAppend(a + "?" + m, "?" + z);
    assert a + "?" + m + ("?" + z) == a + "?" + m + "?" + z;
  }

  lemma FourMarks(a: string, m: string, z: string)
    requires CountMarks(a) == 0 && CountMarks(m) == 0 && CountMarks(z) == 0
    ensures CountMarks(a + "?" + m + "?" + m + "?" + m + "?" + z) == 4
  {
    var q := "?";
    CountMarksOne();
    CountMarksAppend(a + q + m + q + m + q + m + q, z);
    CountMarksAppend(a + q + m + q + m + q + m, q);
    CountMarksAppend(a + q + m + q + m + q, m);
    CountMarksAppend(a + q + m + q + m, q);
    CountMarksAppend(a + q + m + q, m);
    CountMarksAppend(a + q + m, q);
    CountMarksAppend(a + q, m);
    CountMarksAppend(a, q);
  }

  /** The text of a clause holds exactly its number of placeholders. */
  lemma ClauseMarks(cl: Clause)
    ensures CountMarks(ClauseText(cl)) == Placeholders(cl)
  {
    match cl
    case NameMatches(_) =>
      FrontPiecesPlain();
      CountMarksNone("name REGEXP ");
      CountMarksNone(" ");
      OneMark("name REGEXP ", " ");
    case CountryOrState(_) =>
      FrontPiecesPlain();
      CountMarksNone("(country = ");
      CountMarksNone(" OR state = ");
      CountMarksNone(") ");
      TwoMarks("(country = ", " OR state = ", ") ");
    case InBox(_, _, _, _) =>
      CoordPiecesPlain();
      CountMarksNone("IN_BBOX(latitude, longitude, ");
      CountMarksNone(", ");
      CountMarksNone(") ");
      FourMarks("IN_BBOX(latitude, longitude, ", ", ", ") ");
    case Compare(axis, sign, _) =>
      CompareMarks(axis, sign);
    case ElevationAtMost(_) =>
      ElevPiecesPlain();
      CountMarksNone("(elevation > -999 AND elevation <= ");
      CountMarksNone(")");
      OneMark("(elevation > -999 AND elevation <= ", ")");
    case ElevationAtLeast(_) =>
      ElevPiecesPlain();
      CountMarksNone("elevation >= ");
      CountMarksNone(" ");
      OneMark("elevation >= ", " ");
  }

  lemma CompareMarks(axis: Axis, sign: Sign)
    ensures CountMarks(AxisText(axis) + SignText(sign) + " " + "?" + " ") == 1
  {
    CoordPiecesPlain();
    var a := AxisText(axis) + SignText(sign) + " ";
    CountMarksNone(AxisText(axis));
    CountMarksNone(SignText(sign));
    CountMarksNone(" ");
    CountMarksAppend(AxisText(axis) + SignText(sign), " ");
    CountMarksAppend(AxisText(axis), SignText(sign));
    OneMark(a, " ");
  }

  /** A joined clause list holds as many placeholders as its clauses declare. */
  lemma {:induction false} WhereMarks(cls: seq<Clause>)
    ensures CountMarks(WhereText(cls)) == TotalPlaceholders(cls)
  {
    if cls != [] {
      ClauseMarks(cls[0]);
      if |cls| == 1 {
        WhereSingle(cls[0]);
        assert cls == [cls[0]];
      } else {
        WhereCons(cls);
        WhereMarks(cls[1..]);
        CountMarksNone("AND ");
        CountMarksAppend(ClauseText(cls[0]) + "AND ", WhereText(cls[1..]));
        CountMarksAppend(ClauseText(cls[0]), "AND ");
      }
    }
  }

  /** The argument list binds every placeholder of the statement the source
      writes, dangling connector or not. */
  lemma ArgsMatchStatement(c: Criteria)
    requires Consistent(c)
    ensures |ClauseArgs(Clauses(c))| == CountMarks(SourceStatement(c))
  {
    var w := WhereText(Clauses(c));
    SourceWhereShape(c);
    WhereMarks(Clauses(c));
    ArgsFillPlaceholders(Clauses(c));
    PrefixMarks(SourceWhere(c));
    if DanglingAnd(c) {
      ConnectorPiecesPlain();
      CountMarksNone("AND ");
      CountMarksAppend("AND ", w);
      assert SourceWhere(c) == "AND " + w;
    } else {
      assert SourceWhere(c) == "" + w;
      assert "" + w == w;
    }
  }

  lemma PrefixMarks(w: string)
    ensures CountMarks("SELECT * FROM GHCNDaily WHERE " + w) == CountMarks(w)
  {
    ConnectorPiecesPlain();
    CountMarksNone("SELECT * FROM GHCNDaily WHERE ");
    CountMarksAppend("SELECT * FROM GHCNDaily WHERE ", w);
  }

  // ---------------------------------------------------------------- evaluation

  function Min(a: real, b: real): real { if a <= b then a else b }
  function Max(a: real, b: real): real { if a <= b then b else a }

  /** `IN_BBOX`: the point lies in the rectangle the two corners span,
      boundaries included. */
  function InBBox(testLat: real, testLon: real, lat1: real, lon1: real, lat2: real, lon2: real): (r: bool)
    ensures r <==>
      (lat1 <= testLat <= lat2 || lat2 <= testLat <= lat1) && (lon1 <= testLon <= lon2 || lon2 <= testLon <= lon1)
  {
    Min(lat1, lat2) <= testLat <= Max(lat1, lat2) && Min(lon1, lon2) <= testLon <= Max(lon1, lon2)
  }

  /** Which two opposite corners are given does not matter. */
  lemma InBBoxCornersSwap(testLat: real, testLon: real, lat1: real, lon1: real, lat2: real, lon2: real)
    ensures InBBox(testLat, testLon, lat1, lon1, lat2, lon2) == InBBox(testLat, testLon, lat2, lon2, lat1, lon1)
    ensures InBBox(testLat, testLon, lat1, lon1, lat2, lon2) == InBBox(testLat, testLon, lat1, lon2, lat2, lon1)
  {
  }

  /** Both corners lie in their own box. */
  lemma InBBoxCorners(lat1: real, lon1: real, lat2: real, lon2: real)
    ensures InBBox(lat1, lon1, lat1, lon1, lat2, lon2) && InBBox(lat2, lon2, lat1, lon1, lat2, lon2)
  {
  }

  function Compares(sign: Sign, x: real, bound: real): bool {
    match sign
    case AtLeast => x >= bound
    case AtMost => x <= bound
  }

  /** Whether a station satisfies one condition. `regexp(pattern, text)` is the
      `REGEXP` function sqlite calls; a null state never equals a code. */
  predicate Holds(cl: Clause, st: Station, regexp: (string, string) -> bool)
    ensures cl.CountryOrState? ==>
      (Holds(cl, st, regexp) <==> st.country == cl.code || (st.state.Some? && st.state.value == cl.code))
    ensures cl.InBox? ==>
      (Holds(cl, st, regexp) <==>
        InBBox(st.latitude, st.longitude, cl.lat2 as real, cl.lon2 as real, cl.lat1 as real, cl.lon1 as real))
    ensures cl.ElevationAtMost? && Holds(cl, st, regexp) ==> st.elevation != UnknownElevation
    ensures cl.ElevationAtLeast? && Holds(cl, st, regexp) ==> st.elevation >= cl.bound as real
  {
    match cl
    case NameMatches(p) => regexp(p, st.name)
    case CountryOrState(code) => st.country == code || st.state == Some(code)
    case InBox(a, b, c, d) => InBBox(st.latitude, st.longitude, a as real, b as real, c as real, d as real)
    case Compare(Latitude, sign, v) => Compares(sign, st.latitude, v as real)
    case Compare(Longitude, sign, v) => Compares(sign, st.longitude, v as real)
    case ElevationAtMost(v) => st.elevation > UnknownElevation && st.elevation <= v as real
    case ElevationAtLeast(v) => st.elevation >= v as real
  }

  predicate MatchesAll(cls: seq<Clause>, st: Station, regexp: (string, string) -> bool) {
    forall i :: 0 <= i < |cls| ==> Holds(cls[i], st, regexp)
  }

  /** The rows the query returns, in catalog order. */
  function Select(cls: seq<Clause>, catalog: seq<Station>, regexp: (string, string) -> bool): (r: seq<Station>)
    ensures |r| <= |catalog|
    ensures forall st :: st in r <==> st in catalog && MatchesAll(cls, st, regexp)
  {
    if catalog == [] then []
    else
      var rest := Select(cls, catalog[1..], regexp);
      assert forall st :: st in catalog <==> st == catalog[0] || st in catalog[1..];
      if MatchesAll(cls, catalog[0], regexp) then [catalog[0]] + rest else rest
  }

  /** Selection keeps catalog order: selecting from two halves is selecting from each. */
  lemma {:induction false} SelectAppend(cls: seq<Clause>, a: seq<Station>, b: seq<Station>, regexp: (string, string) -> bool)
    ensures Select(cls, a + b, regexp) == Select(cls, a, regexp) + Select(cls, b, regexp)
  {
    if a == [] {
      assert a + b == b;
    } else {
      assert (a + b)[0] == a[0];
      assert (a + b)[1..] == a[1..] + b;
      SelectAppend(cls, a[1..], b, regexp);
    }
  }

  /** The conditions combine by AND: selecting on a concatenation of clause
      lists is selecting on one, then on the other. */
  lemma {:induction false} SelectConjunction(x: seq<Clause>, y: seq<Clause>, catalog: seq<Station>, regexp: (string, string) -> bool)
    ensures Select(x + y, catalog, regexp) == Select(y, Select(x, catalog, regexp), regexp)
  {
    if catalog != [] {
      SelectConjunction(x, y, catalog[1..], regexp);
      var st := catalog[0];
      assert MatchesAll(x + y, st, regexp) <==> MatchesAll(x, st, regexp) && MatchesAll(y, st, regexp) by {
        if MatchesAll(x, st, regexp) && MatchesAll(y, st, regexp) {
          forall i | 0 <= i < |x + y| ensures Holds((x + y)[i], st, regexp) {
            if i >= |x| { assert (x + y)[i] == y[i - |x|]; }
          }
        }
        if MatchesAll(x + y, st, regexp) {
          forall i | 0 <= i < |y| ensures Holds(y[i], st, regexp) {
            assert (x + y)[|x| + i] == y[i];
          }
          forall i | 0 <= i < |x| ensures Holds(x[i], st, regexp) {
            assert (x + y)[i] == x[i];
          }
        }
      }
      var once := Select(x, catalog, regexp);
      if MatchesAll(x, st, regexp) {
        assert once == [st] + Select(x, catalog[1..], regexp);
        assert once[1..] == Select(x, catalog[1..], regexp);
      }
    }
  }

  /** Running the same query again on its own result changes nothing. */
  lemma {:induction false} SelectIdempotent(cls: seq<Clause>, catalog: seq<Station>, regexp: (string, string) -> bool)
    ensures Select(cls, Select(cls, catalog, regexp), regexp) == Select(cls, catalog, regexp)
  {
    if catalog != [] {
      SelectIdempotent(cls, catalog[1..], regexp);
      var once := Select(cls, catalog, regexp);
      if MatchesAll(cls, catalog[0], regexp) {
        assert once[0] == catalog[0];
        assert once[1..] == Select(cls, catalog[1..], regexp);
      }
    }
  }

  /** A station to use in the examples below. */
  function Probe(latitude: real, longitude: real, elevation: real): Station {
    Station("X", latitude, longitude, elevation, None, "PROBE", false, false, None, "US", 0.0,
      0, 0, 0, 0, 0, 0, 0, 0, 0, 0, true)
  }

  /** The box with corners (10, 10) and (-10, -10) holds (0, 0) but not (20, 20). */
  lemma BoxExample(regexp: (string, string) -> bool)
    ensures Holds(InBox(10, 10, -10, -10), Probe(0.0, 0.0, 0.0), regexp)
    ensures !Holds(InBox(10, 10, -10, -10), Probe(20.0, 20.0, 0.0), regexp)
  {
  }

  /** Point mode with latitude >= 10 and no longitude: one condition,
      satisfied exactly by the stations with latitude at least 10. */
  lemma PointExample(c: Criteria, st: Station, regexp: (string, string) -> bool)
    requires c == Criteria(None, None, false, Some(AtLeast), Some(10), Some(AtMost), None, None, None, None, AtLeast)
    ensures Clauses(c) == [Compare(Latitude, AtLeast, 10)]
    ensures MatchesAll(Clauses(c), st, regexp) <==> st.latitude >= 10.0
  {
    assert Clauses(c) == [] + [Compare(Latitude, AtLeast, 10)] + [];
    SingleClause(Compare(Latitude, AtLeast, 10), st, regexp);
  }

  lemma SingleClause(cl: Clause, st: Station, regexp: (string, string) -> bool)
    ensures MatchesAll([cl], st, regexp) <==> Holds(cl, st, regexp)
  {
    assert [cl][0] == cl;
  }

  /** "At most 0 m": an unknown elevation never matches, -50 m does; "at
      least" has no sentinel exclusion. */
  lemma ElevationExample(regexp: (string, string) -> bool)
    ensures !Holds(ElevationAtMost(0), Probe(0.0, 0.0, UnknownElevation), regexp)
    ensures Holds(ElevationAtMost(0), Probe(0.0, 0.0, -50.0), regexp)
    ensures Holds(ElevationAtLeast(-1000), Probe(0.0, 0.0, UnknownElevation), regexp)
  {
  }

  /** The upper-bound clause is the lower-bound one with the sentinel excluded. */
  lemma ElevationAtMostExcludesUnknown(v: int, st: Station, regexp: (string, string) -> bool)
    ensures Holds(ElevationAtMost(v), st, regexp)
      <==> st.elevation > UnknownElevation && st.elevation <= v as real
    ensures st.elevation == UnknownElevation ==> !Holds(ElevationAtMost(v), st, regexp)
  {
  }

  /** A code matches a station whose country or whose state equals it. */
  lemma CountryOrStateExample(regexp: (string, string) -> bool)
    ensures var st := Probe(0.0, 0.0, 0.0);
      Holds(CountryOrState("US"), st, regexp)
      && Holds(CountryOrState("WA"), st.(country := "CA", state := Some("WA")), regexp)
      && !Holds(CountryOrState("WA"), st, regexp)
  {
  }

  /** With the box toggle on and some corner missing, a station matches
      exactly when it satisfies the description, code and elevation
      conditions: its location is not filtered. */
  lemma IncompleteBoxIgnoresLocation(c: Criteria, st: Station, regexp: (string, string) -> bool)
    requires Consistent(c) && c.bbox && !BoxComplete(c)
    ensures MatchesAll(Clauses(c), st, regexp) <==> MatchesAll(FrontClauses(c) + ElevClauses(c), st, regexp)
  {
    assert Clauses(c) == FrontClauses(c) + ElevClauses(c);
  }

  /** A matcher for patterns without regular-expression operators: a
      case-insensitive substring test. */
  predicate ContainsIgnoringCase(pattern: string, text: string) {
    exists i :: 0 <= i <= |text| - |pattern| && MatchesAt(pattern, text, i)
  }

  predicate MatchesAt(pattern: string, text: string, i: int)
    requires 0 <= i <= |text| - |pattern|
  {
    ToUpper(text[i..i + |pattern|]) == ToUpper(pattern)
  }

  /** With the substring matcher and only a description, a station matches
      exactly when its name contains the description, in any case. */
  lemma DescriptionOnly(c: Criteria, st: Station)
    requires Consistent(c) && c.desc.Some?
    requires c.countryAbbr.None? && !AnyCoord(c) && c.elev.None?
    ensures Clauses(c) == [NameMatches(c.desc.value)]
    ensures MatchesAll(Clauses(c), st, ContainsIgnoringCase)
      <==> ContainsIgnoringCase(c.desc.value, st.name)
  {
    assert Clauses(c) == [NameMatches(c.desc.value)] + [] + [] + [];
    SingleClause(NameMatches(c.desc.value), st, ContainsIgnoringCase);
  }

  lemma SubstringExample()
    ensures ContainsIgnoringCase("tacoma", "SEATTLE TACOMA")
    ensures !ContainsIgnoringCase("tacoma", "SEATTLE")
  {
    var t := "SEATTLE TACOMA";
    assert t[8..14] == "TACOMA";
    assert ToUpper("tacoma") == "TACOMA";
    assert MatchesAt("tacoma", t, 8);
    var u := "SEATTLE";
    assert ToUpper("tacoma")[0] == 'T';
    assert ToUpper(u[0..6])[0] == 'S' && ToUpper(u[1..7])[0] == 'E';
    assert !MatchesAt("tacoma", u, 0) && !MatchesAt("tacoma", u, 1);
  }
}
