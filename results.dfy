/** `resort_results`: the order of the result list and the texts of the
    results label and listbox. */
module Results {
  import opened Wrappers
  import opened Text
  import opened Catalog

  /** The attribute the results are sorted by. */
  datatype SortMethod = ById | ByName | ByState | ByLatitude | ByLongitude | ByElevation | BySize

  /** The name the settings and the label use for a sort method. */
  function MethodName(m: SortMethod): string {
    match m
    case ById => "id"
    case ByName => "name"
    case ByState => "state"
    case ByLatitude => "latitude"
    case ByLongitude => "longitude"
    case ByElevation => "elevation"
    case BySize => "size"
  }

  /** The methods whose key is text. */
  predicate IsTextual(m: SortMethod) {
    m == ById || m == ByName || m == ByState
  }

  /** `str(station.state)`: a missing state sorts as the text "None". */
  function StateKey(st: Station): string {
    if st.state.Some? then st.state.value else "None"
  }

  /** `key(a) <= key(b)` for the key the sort method picks; every station's
      key is at most itself. */
  function KeyLe(m: SortMethod, a: Station, b: Station): (le: bool)
    ensures a == b ==> le
  {
    match m
    case ById => StrLe(a.id, b.id)
    case ByName => StrLe(a.name, b.name)
    case ByState => StrLe(StateKey(a), StateKey(b))
    case ByLatitude => a.latitude <= b.latitude
    case ByLongitude => a.longitude <= b.longitude
    case ByElevation => a.elevation <= b.elevation
    case BySize => a.size <= b.size
  }

  /** `a` may come before `b` in the order asked for; equal stations may
      stand in either order. */
  function Before(m: SortMethod, descending: bool, a: Station, b: Station): (r: bool)
    ensures a == b ==> r
  {
    if descending then KeyLe(m, b, a) else KeyLe(m, a, b)
  }

  lemma BeforeTotal(m: SortMethod, descending: bool, a: Station, b: Station)
    ensures Before(m, descending, a, b) || Before(m, descending, b, a)
  {
    match m
    case ById => StrLeTotal(a.id, b.id);
    case ByName => StrLeTotal(a.name, b.name);
    case ByState => StrLeTotal(StateKey(a), StateKey(b));
    case _ =>
  }

  lemma BeforeTransitive(m: SortMethod, descending: bool, a: Station, b: Station, c: Station)
    requires Before(m, descending, a, b) && Before(m, descending, b, c)
    ensures Before(m, descending, a, c)
  {
    match m
    case ById =>
      if descending { StrLeTransitive(c.id, b.id, a.id); } else { StrLeTransitive(a.id, b.id, c.id); }
    case ByName =>
      if descending { StrLeTransitive(c.name, b.name, a.name); } else { StrLeTransitive(a.name, b.name, c.name); }
    case ByState =>
      if descending {
        StrLeTransitive(StateKey(c), StateKey(b), StateKey(a));
      } else {
        StrLeTransitive(StateKey(a), StateKey(b), StateKey(c));
      }
    case _ =>
  }

  /** The list is in the order asked for. */
  predicate Sorted(m: SortMethod, descending: bool, s: seq<Station>) {
    forall i, j :: 0 <= i < j < |s| ==> Before(m, descending, s[i], s[j])
  }

  /** `s` with `x` placed before the first element it may precede. */
  function Insert(m: SortMethod, descending: bool, x: Station, s: seq<Station>): (r: seq<Station>)
    ensures multiset(r) == multiset(s) + multiset{x}
  {
    if s == [] then [x]
    else if Before(m, descending, x, s[0]) then [x] + s
    else
      var rest := Insert(m, descending, x, s[1..]);
      assert s == [s[0]] + s[1..];
      [s[0]] + rest
  }

  lemma {:induction false} InsertSorted(m: SortMethod, descending: bool, x: Station, s: seq<Station>)
    requires Sorted(m, descending, s)
    ensures Sorted(m, descending, Insert(m, descending, x, s))
  {
    if s != [] {
      if Before(m, descending, x, s[0]) {
        PrependSorted(m, descending, x, s);
      } else {
        var rest := Insert(m, descending, x, s[1..]);
        TailSorted(m, descending, s);
        InsertSorted(m, descending, x, s[1..]);
        BeforeTotal(m, descending, x, s[0]);
        forall k | 0 <= k < |rest| ensures Before(m, descending, s[0], rest[k]) {
          assert rest[k] in multiset(rest);
          if rest[k] != x {
            assert rest[k] in multiset(s[1..]);
            var j :| 0 <= j < |s[1..]| && s[1..][j] == rest[k];
            assert s[j + 1] == rest[k];
          }
        }
        ConsSorted(m, descending, s[0], rest);
      }
    }
  }

  lemma TailSorted(m: SortMethod, descending: bool, s: seq<Station>)
    requires s != [] && Sorted(m, descending, s)
    ensures Sorted(m, descending, s[1..])
  {
    forall i, j | 0 <= i < j < |s[1..]| ensures Before(m, descending, s[1..][i], s[1..][j]) {
      assert s[1..][i] == s[i + 1] && s[1..][j] == s[j + 1];
    }
  }

  /** A sorted list stays sorted behind an element that may precede all of it. */
  lemma ConsSorted(m: SortMethod, descending: bool, x: Station, s: seq<Station>)
    requires Sorted(m, descending, s)
    requires forall k :: 0 <= k < |s| ==> Before(m, descending, x, s[k])
    ensures Sorted(m, descending, [x] + s)
  {
    var r := [x] + s;
    forall i, j | 0 <= i < j < |r| ensures Before(m, descending, r[i], r[j]) {
      assert r[j] == s[j - 1];
      if i > 0 {
        assert r[i] == s[i - 1];
      }
    }
  }

  lemma PrependSorted(m: SortMethod, descending: bool, x: Station, s: seq<Station>)
    requires s != [] && Sorted(m, descending, s) && Before(m, descending, x, s[0])
    ensures Sorted(m, descending, [x] + s)
  {
    forall k | 0 <= k < |s| ensures Before(m, descending, x, s[k]) {
      if k > 0 {
        BeforeTransitive(m, descending, x, s[0], s[k]);
      }
    }
    ConsSorted(m, descending, x, s);
  }

  /** `results.sort(key=..., reverse=descending)` as a stable insertion sort. */
  function Sort(m: SortMethod, descending: bool, s: seq<Station>): (r: seq<Station>)
    ensures multiset(r) == multiset(s)
  {
    if s == [] then []
    else
      var rest := Sort(m, descending, s[1..]);
      assert s == [s[0]] + s[1..];
      Insert(m, descending, s[0], rest)
  }

  /** The sorted list is in the order asked for. */
  lemma {:induction false} SortSorted(m: SortMethod, descending: bool, s: seq<Station>)
    ensures Sorted(m, descending, Sort(m, descending, s))
  {
    if s != [] {
      SortSorted(m, descending, s[1..]);
      InsertSorted(m, descending, s[0], Sort(m, descending, s[1..]));
    }
  }

  /** The sorted list holds the same stations, each as often as before. */
  lemma SortPermutes(m: SortMethod, descending: bool, s: seq<Station>)
    ensures multiset(Sort(m, descending, s)) == multiset(s)
    ensures |Sort(m, descending, s)| == |s|
  {
    assert |multiset(Sort(m, descending, s))| == |multiset(s)|;
  }

  /** The sort is reversed exactly when the direction setting is 1. */
  function Descending(direction: int): bool {
    direction == 1
  }

  /** The direction text of the label. */
  function DirectionText(m: SortMethod, direction: int): (r: string)
    ensures IsTextual(m) ==> (r == "A to Z" <==> direction == 0)
    ensures !IsTextual(m) ==> (r == "low-to-high" <==> direction == 0)
  {
    if direction == 0 && IsTextual(m) then "A to Z"
    else if direction == 1 && IsTextual(m) then "Z to A"
    else if direction == 0 then "low-to-high"
    else "high-to-low"
  }

  /** For the two settings the options offer, the label names the order the
      list is put in. */
  lemma DirectionTextMatchesSort(m: SortMethod, direction: int)
    requires direction == 0 || direction == 1
    ensures Descending(direction) <==> DirectionText(m, direction) in {"Z to A", "high-to-low"}
  {
  }

  /** "s" after a count other than one. */
  function Plural(n: nat, one: string, many: string): string {
    if n != 1 then many else one
  }

  /** The order a label with several results names: ", sorted by <key>,
      (<direction>)". */
  function OrderText(m: SortMethod, direction: int): string {
    ", sorted by " + MethodName(m) + ", (" + DirectionText(m, direction) + ")"
  }

  /** The results label after sorting: "{n} match(es) was/were found", and
      with more than one result, the order it is sorted in. */
  function CountLabel(n: nat, m: SortMethod, direction: int): (r: string)
    ensures |r| > |NatText(n)| && r[..|NatText(n)|] == NatText(n) && r[|NatText(n)|] == ' '
    ensures n == 0 ==> r == "0 matches were found"
    ensures n == 1 ==> r == "1 match was found"
    ensures n > 1 ==> r == NatText(n) + " matches were found" + OrderText(m, direction)
  {
    var head := LabelHead(n);
    LabelHeadWords(n);
    LabelHeadFew();
    LabelHeadCount(n);
    var r := head + (if n > 1 then OrderText(m, direction) else "");
    assert r[..|NatText(n)|] == head[..|NatText(n)|];
    r
  }

  /** "{n} match(es) was/were found". */
  function LabelHead(n: nat): string {
    NatText(n) + LabelWords(n)
  }

  /** " match(es) was/were found" */
  function LabelWords(n: nat): string {
    " match" + Plural(n, "", "es") + " " + Plural(n, "was", "were") + " found"
  }

  lemma LabelHeadWords(n: nat)
    ensures n != 1 ==> LabelHead(n) == NatText(n) + " matches were found"
  {
    if n != 1 {
      PluralWords(n);
    }
  }

  lemma LabelHeadFew()
    ensures LabelHead(0) == "0 matches were found"
    ensures LabelHead(1) == "1 match was found"
  {
    PluralWords(0);
    SingularWords();
    assert NatText(0) == "0" && NatText(1) == "1";
  }

  lemma SingularWords()
    ensures LabelWords(1) == " match was found"
  {
    assert Plural(1, "", "es") == "" && Plural(1, "was", "were") == "was";
  }

  lemma PluralWords(n: nat)
    requires n != 1
    ensures LabelWords(n) == " matches were found"
  {
    assert Plural(n, "", "es") == "es" && Plural(n, "was", "were") == "were";
  }

  /** The label head starts with the count and a space. */
  lemma LabelHeadCount(n: nat)
    ensures |LabelHead(n)| > |NatText(n)| && LabelHead(n)[..|NatText(n)|] == NatText(n)
    ensures LabelHead(n)[|NatText(n)|] == ' '
  {
    assert LabelWords(n)[0] == ' ';
  }

  /** The singular label is given for exactly one result. */
  lemma CountLabelSingular(n: nat, m: SortMethod, direction: int)
    ensures CountLabel(n, m, direction) == "1 match was found" <==> n == 1
  {
    LeadingCount(n, CountLabel(n, m, direction));
  }

  /** A label led by the count and a space reads "1 ..." only for one result. */
  lemma LeadingCount(n: nat, r: string)
    requires |r| > |NatText(n)| && r[..|NatText(n)|] == NatText(n) && r[|NatText(n)|] == ' '
    ensures |r| >= 2 && r[..2] == "1 " ==> n == 1
  {
    var k := |NatText(n)|;
    if |r| >= 2 && r[..2] == "1 " {
      assert r[1] == ' ';
      assert IsDigit(r[0]);
      assert NatText(n) == [r[0]];
      NatTextValue(n);
      assert [r[0]][..0] == [];
    }
  }

  /** The label when a search returns nothing. */
  const NoResults := "* No Results Found! *"

  /** What the results label says: nothing yet, that nothing was found, or
      the count of results and the order they are in. */
  datatype Caption = Blank | NoneFound | Matches(count: nat, m: SortMethod, direction: int)

  /** The text the results label shows. */
  function CaptionText(c: Caption): (r: string)
    ensures c.Matches? ==> |r| > |NatText(c.count)| && r[..|NatText(c.count)|] == NatText(c.count)
    ensures c.NoneFound? ==> r == NoResults
  {
    match c
    case Blank => ""
    case NoneFound => NoResults
    case Matches(n, m, direction) => CountLabel(n, m, direction)
  }

  /** One line of the results listbox: id, state when known, name, size.
      `sizeText` is Python's `str` of a float, which is not modelled. */
  function ListLine(st: Station, sizeText: real -> string): (line: string)
    ensures |line| >= |st.id| + 3 && line[..|st.id|] == st.id && line[|st.id|..|st.id| + 3] == " - "
    ensures st.state.Some? ==>
      (|line| >= |st.id| + 3 + |st.state.value|
       && line[|st.id| + 3..|st.id| + 3 + |st.state.value|] == st.state.value)
    ensures var tail := st.name + " - " + sizeText(st.size);
      |line| >= |tail| && line[|line| - |tail|..] == tail
    ensures |line| == |st.id| + 3 + (if st.state.Some? then |st.state.value| + 3 else 0)
      + |st.name| + 3 + |sizeText(st.size)|
    ensures st.state.Some? ==> line[|st.id| + 3 + |st.state.value|..][..3] == " - "
  {
    st.id + " - " + (if st.state.Some? then st.state.value + " - " else "") + st.name + " - " + sizeText(st.size)
  }

  /** The listbox contents for a result list, one line per station, in order. */
  function Listing(rs: seq<Station>, sizeText: real -> string): (ls: seq<string>)
    ensures |ls| == |rs|
  {
    seq(|rs|, i requires 0 <= i < |rs| => ListLine(rs[i], sizeText))
  }

  /** The listing of a longer prefix adds the line of the next station. */
  lemma ListingStep(rs: seq<Station>, i: nat, sizeText: real -> string)
    requires i < |rs|
    ensures Listing(rs[..i + 1], sizeText) == Listing(rs[..i], sizeText) + [ListLine(rs[i], sizeText)]
  {
    var a, b := Listing(rs[..i + 1], sizeText), Listing(rs[..i], sizeText) + [ListLine(rs[i], sizeText)];
    assert |a| == |b|;
    forall k | 0 <= k < |a| ensures a[k] == b[k] {
      assert rs[..i + 1][k] == rs[k];
    }
  }

  /** Fills the listbox, one inserted line per station, in list order. */
  method FillListbox(rs: seq<Station>, sizeText: real -> string) returns (lines: seq<string>)
    ensures lines == Listing(rs, sizeText)
  {
    lines := [];
    for i := 0 to |rs|
      invariant lines == Listing(rs[..i], sizeText)
    {
      ListingStep(rs, i, sizeText);
      lines := lines + [ListLine(rs[i], sizeText)];
    }
    assert rs[..|rs|] == rs;
  }
}
