/** Choice of the microphone from the `--input_device` argument and the list of
    input device names reported by the capture library. */
module Devices {
  import opened Base
  import opened Text

  /** `list` stops the program after printing the devices; otherwise the microphone is
      opened with the chosen index, or with the system default when it is `None`. */
  datatype DeviceChoice = ListDevices | Use(index: Option<nat>)

  /** Whether the device at `index`, named `name`, answers the query: a digit string
      names an index; any other string is a case-insensitive substring of the name. */
  predicate Matches(query: string, name: string, index: nat) {
    if IsDigits(query) then DigitsValue(query) == index
    else Contains(Lower(name), Lower(query))
  }

  /** The enumeration loop from position `from` on: it stops at the first device that
      answers the query. */
  function Scan(query: string, names: seq<string>, from: nat): (r: Option<nat>)
    requires from <= |names|
    ensures r.Some? ==> from <= r.value < |names| && Matches(query, names[r.value], r.value)
    ensures r.Some? ==> forall j :: from <= j < r.value ==> !Matches(query, names[j], j)
    ensures r.None? ==> forall j :: from <= j < |names| ==> !Matches(query, names[j], j)
    decreases |names| - from
  {
    if from == |names| then None
    else if Matches(query, names[from], from) then Some(from)
    else Scan(query, names, from + 1)
  }

  /** The device selected by the `--input_device` argument. */
  function SelectDevice(arg: Option<string>, names: seq<string>): (c: DeviceChoice)
    ensures c == ListDevices <==> arg == Some("list")
    ensures arg.None? ==> c == Use(None)
    ensures c.Use? && c.index.Some? ==>
      && arg.Some?
      && c.index.value < |names|
      && Matches(arg.value, names[c.index.value], c.index.value)
      && (forall j :: 0 <= j < c.index.value ==> !Matches(arg.value, names[j], j))
    ensures arg.Some? && arg.value != "list" && c == Use(None) ==>
      forall j :: 0 <= j < |names| ==> !Matches(arg.value, names[j], j)
  {
    match arg
    case None => Use(None)
    case Some(query) =>
      if query == "list" then ListDevices else Use(Scan(query, names, 0))
  }

  /** A digit string selects the device at that index when the index is in range and
      falls back to the default device otherwise. */
  lemma DigitSelection(query: string, names: seq<string>)
    requires IsDigits(query)
    ensures var v := DigitsValue(query);
      SelectDevice(Some(query), names) == Use(if v < |names| then Some(v) else None)
  {
    var v := DigitsValue(query);
    assert query != "list" by {
      assert !IsDigit("list"[0]);
    }
    if v < |names| {
      assert Matches(query, names[v], v);
    }
  }

  /** Typing the index shown in the device listing selects that device. */
  lemma ListedIndexSelects(names: seq<string>, i: nat)
    requires i < |names|
    ensures SelectDevice(Some(Decimal(i)), names) == Use(Some(i))
  {
    DecimalRoundTrip(i);
    DigitSelection(Decimal(i), names);
  }

  /** Any other query selects the first device whose name contains it, ignoring
      letter case. */
  lemma NameSelection(query: string, names: seq<string>, i: nat)
    requires !IsDigits(query) && query != "list"
    requires i < |names|
    ensures SelectDevice(Some(query), names) == Use(Some(i)) <==>
      && Contains(Lower(names[i]), Lower(query))
      && forall j :: 0 <= j < i ==> !Contains(Lower(names[j]), Lower(query))
  {
    if Contains(Lower(names[i]), Lower(query)) && forall j :: 0 <= j < i ==> !Contains(Lower(names[j]), Lower(query)) {
      assert Matches(query, names[i], i);
    }
  }

  /** Such a query falls back to the default device exactly when no name contains
      it, ignoring letter case; in particular when there is no device at all. */
  lemma NameFallback(query: string, names: seq<string>)
    requires !IsDigits(query) && query != "list"
    ensures SelectDevice(Some(query), names) == Use(None) <==>
      forall j :: 0 <= j < |names| ==> !Contains(Lower(names[j]), Lower(query))
  {
  }

  /** An empty query is a substring of every name, so it selects the first device. */
  lemma EmptyQuerySelectsFirst(names: seq<string>)
    requires |names| > 0
    ensures SelectDevice(Some(""), names) == Use(Some(0))
  {
    assert OccursAt(Lower(names[0]), Lower(""), 0);
    assert Matches("", names[0], 0);
  }
}
