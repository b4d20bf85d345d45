/** The event flags of the go-logger library (`event_flag.go`): 64-bit masks,
    one bit per kind of event, their names and the parsing of the
    `LOG_EVENTS` setting. */
module EventFlags {
  import opened Wrappers
  import opened GoStrings

  /** A `uint64` flag word, as the set of the positions of its one bits:
      `&` is intersection, `|` is union and `^` is symmetric difference. */
  type Flag = s: set<nat> | forall b :: b in s ==> b < 64 witness {}

  const EventNone: Flag := {}
  const EventAll: Flag := set b: nat | b < 64
  const EventFatalError: Flag := {2}
  const EventError: Flag := {3}
  const EventWarning: Flag := {4}
  const EventDebug: Flag := {5}
  const EventInfo: Flag := {6}
  const EventRequest: Flag := {7}
  const EventRequestComplete: Flag := {8}
  const EventPostBody: Flag := {9}
  const EventResponse: Flag := {10}
  const EventUserError: Flag := {11}
  const EventFlagMax: Flag := EventUserError

  const EventFlagNameAll: String := "ALL"
  const EventFlagNameNone: String := "NONE"

  /** The flags by name, as `EventFlagNames` declares them. */
  const EventFlagNames: map<String, Flag> := map[
    "FATAL" := EventFatalError, "ERROR" := EventError, "WARNING" := EventWarning,
    "DEBUG" := EventDebug, "INFO" := EventInfo, "REQUEST_START" := EventRequest,
    "REQUEST" := EventRequestComplete, "POST_BODY" := EventPostBody,
    "RESPONSE" := EventResponse, "USER_ERROR" := EventUserError]

  /** The names in declaration order. */
  const DeclaredNames: seq<String> := [
    "FATAL", "ERROR", "WARNING", "DEBUG", "INFO",
    "REQUEST_START", "REQUEST", "POST_BODY", "RESPONSE", "USER_ERROR"]

  /** The union of the named flags: bits 2 to 11. */
  const NamedMask: Flag := set b: nat | 2 <= b < 12

  /** The i-th declared name stands for bit `i + 2`, and there are no other names. */
  lemma NamedFlagsAreDistinctBits()
    ensures |DeclaredNames| == 10
    ensures forall i :: 0 <= i < 10 ==> DeclaredNames[i] in EventFlagNames && EventFlagNames[DeclaredNames[i]] == {i + 2}
    ensures forall name :: name in EventFlagNames <==> name in DeclaredNames
  {
  }

  /** An order in which a `range` over `EventFlagNames` may visit the names:
      each name exactly once. Go leaves the order unspecified. */
  predicate IterationOrder(order: seq<String>) {
    && (forall i :: 0 <= i < |order| ==> order[i] in EventFlagNames)
    && (forall i, j :: 0 <= i < j < |order| ==> order[i] != order[j])
    && (forall name :: name in EventFlagNames ==> name in order)
  }

  lemma DeclarationOrderIsAnOrder()
    ensures IterationOrder(DeclaredNames)
  {
    NamedFlagsAreDistinctBits();
  }

  /** `EventFlagAll`: `reference & value == value`. */
  function EventFlagAll(reference: Flag, value: Flag): (r: bool)
    ensures r <==> forall b :: b in value ==> b in reference
  {
    reference * value == value
  }

  /** `EventFlagAny`: `reference & value > 0`. */
  function EventFlagAny(reference: Flag, value: Flag): (r: bool)
    ensures r <==> exists b :: b in reference && b in value
  {
    CommonBit(reference, value);
    reference * value != {}
  }

  lemma CommonBit(a: Flag, c: Flag)
    ensures a * c != {} <==> exists b :: b in a && b in c
  {
    if a * c != {} {
      var b :| b in a * c;
    }
    if exists b :: b in a && b in c {
      var b :| b in a && b in c;
      assert b in a * c;
    }
  }

  /** A non-empty value whose bits are all set shares a bit with the reference;
      the empty value is contained in everything and shares nothing. */
  lemma AllImpliesAny(reference: Flag, value: Flag)
    ensures value != {} && EventFlagAll(reference, value) ==> EventFlagAny(reference, value)
    ensures EventFlagAll(reference, EventNone) && !EventFlagAny(reference, EventNone)
  {
    if value != {} && EventFlagAll(reference, value) {
      var b :| b in value;
      assert b in reference;
    }
  }

  /** `EventFlagCombine`: the bitwise or of the values, from first to last. */
  function EventFlagCombine(values: seq<Flag>): Flag
    decreases |values|
  {
    if |values| == 0 then {} else EventFlagCombine(values[..|values| - 1]) + values[|values| - 1]
  }

  /** A bit is set in the combination exactly when it is set in one of the values. */
  lemma {:induction false} CombineBits(values: seq<Flag>, b: nat)
    ensures b in EventFlagCombine(values) <==> exists k :: 0 <= k < |values| && b in values[k]
    decreases |values|
  {
    if |values| > 0 {
      var init := values[..|values| - 1];
      CombineBits(init, b);
      if exists k :: 0 <= k < |init| && b in init[k] {
        var k :| 0 <= k < |init| && b in init[k];
        assert values[k] == init[k];
      }
      if exists k :: 0 <= k < |values| && b in values[k] {
        var k :| 0 <= k < |values| && b in values[k];
        if k < |values| - 1 { assert init[k] == values[k]; }
      }
    }
  }

  /** The result depends only on which values are given: not on their order or repetitions. */
  lemma CombineIgnoresOrder(a: seq<Flag>, b: seq<Flag>)
    requires forall x :: x in a <==> x in b
    ensures EventFlagCombine(a) == EventFlagCombine(b)
  {
    forall bit: nat ensures bit in EventFlagCombine(a) <==> bit in EventFlagCombine(b) {
      CombineBits(a, bit);
      CombineBits(b, bit);
      if exists k :: 0 <= k < |a| && bit in a[k] {
        var k :| 0 <= k < |a| && bit in a[k];
        assert a[k] in b;
        var j :| 0 <= j < |b| && b[j] == a[k];
      }
      if exists k :: 0 <= k < |b| && bit in b[k] {
        var k :| 0 <= k < |b| && bit in b[k];
        assert b[k] in a;
        var j :| 0 <= j < |a| && a[j] == b[k];
      }
    }
  }

  /** Combining nothing gives no flags; combining two values in either order gives their union. */
  lemma CombineExamples(x: Flag, y: Flag)
    ensures EventFlagCombine([]) == EventNone
    ensures EventFlagCombine([x, y]) == EventFlagCombine([y, x]) == x + y
  {
    CombineIgnoresOrder([x, y], [y, x]);
    assert [x, y][..1] == [x] && [x][..0] == [x][1..];
  }

  /** `EventFlagZero` as written: `flagSet ^ flag`, which turns a set flag off
      but turns an unset flag on. */
  function EventFlagZero(flagSet: Flag, flag: Flag): Flag {
    (flagSet - flag) + (flag - flagSet)
  }

  /** The flag is cleared only when it was set; when unset it is set instead;
      applying it twice gives the original set back. */
  lemma ZeroTogglesFlag(flagSet: Flag, flag: Flag)
    ensures EventFlagAll(flagSet, flag) ==> EventFlagZero(flagSet, flag) * flag == {}
    ensures flagSet !! flag ==> EventFlagZero(flagSet, flag) == flagSet + flag
    ensures EventFlagZero(EventFlagZero(flagSet, flag), flag) == flagSet
  {
  }

  /** Zeroing the info flag of an empty set turns it on. */
  lemma ZeroSetsUnsetFlag()
    ensures EventFlagZero(EventNone, EventInfo) == EventInfo
  {
  }

  /** Turning a flag off (`flagSet &^ flag`): its bits are cleared and no other bit changes. */
  function EventFlagClear(flagSet: Flag, flag: Flag): (r: Flag)
    ensures forall b :: b in r <==> b in flagSet && b !in flag
  {
    flagSet - flag
  }

  /** Clearing only removes bits; clearing twice is clearing once; clearing
      an unset flag changes nothing; on a set flag it agrees with the exclusive or. */
  lemma ClearIsIdempotent(flagSet: Flag, flag: Flag)
    ensures EventFlagAll(flagSet, EventFlagClear(flagSet, flag))
    ensures EventFlagClear(EventFlagClear(flagSet, flag), flag) == EventFlagClear(flagSet, flag)
    ensures flagSet !! flag ==> EventFlagClear(flagSet, flag) == flagSet
    ensures EventFlagAll(flagSet, flag) ==> EventFlagClear(flagSet, flag) == EventFlagZero(flagSet, flag)
  {
  }

  /** A flag word multiplied by 2 to the `n`: every bit moves `n` places up
      and the bits that pass bit 63 are lost. */
  function ShiftUp(f: Flag, n: nat): Flag {
    set b | b in f && b + n < 64 :: b + n
  }

  /** `CreateEventFlagConstant`: `EventFlagMax` times `1 << (iotaOffset + 1)`,
      which is 0 once the shift reaches 64. */
  function CreateEventFlagConstant(iotaOffset: nat): (r: Flag)
    ensures iotaOffset < 52 ==> r == {iotaOffset + 12}
    ensures iotaOffset >= 52 ==> r == {}
  {
    if iotaOffset + 1 >= 64 then {}
    else
      var r := ShiftUp(EventFlagMax, iotaOffset + 1);
      assert 11 in EventFlagMax && forall b :: b in EventFlagMax ==> b == 11;
      assert iotaOffset < 52 ==> iotaOffset + 12 in r;
      r
  }

  /** The constants created for offsets below 52 are new single bits, apart
      from every named flag and from each other. */
  lemma CreatedConstantsAreNew(i: nat, j: nat)
    requires i < 52 && j < 52 && i != j
    ensures CreateEventFlagConstant(i) !! NamedMask
    ensures CreateEventFlagConstant(i) !! CreateEventFlagConstant(j)
  {
  }

  /** The cutset the name parsers trim. */
  const NameTrimSet: set<char> := {' ', '\t', '\n'}

  /** `ParseEventName`: the name upper-cased and trimmed of spaces, tabs and
      newlines; "ALL" is every flag, "NONE" and unknown names are no flag. */
  function ParseEventName(flagValue: String): (r: Flag)
    ensures Trim(ToUpper(flagValue), NameTrimSet) == EventFlagNameAll ==> r == EventAll
    ensures r != EventAll ==> r <= NamedMask
    ensures var cleaned := Trim(ToUpper(flagValue), NameTrimSet);
      cleaned != EventFlagNameAll && cleaned !in EventFlagNames ==> r == EventNone
  {
    var cleaned := Trim(ToUpper(flagValue), NameTrimSet);
    if cleaned == EventFlagNameAll then EventAll
    else if cleaned == EventFlagNameNone then EventNone
    else if cleaned in EventFlagNames then
      NamedFlagsAreDistinctBits();
      var i :| 0 <= i < 10 && DeclaredNames[i] == cleaned;
      EventFlagNames[cleaned]
    else EventNone
  }

  /** `ParseEventNames`: the union of the names' flags, from first to last. */
  function ParseEventNames(flagValues: seq<String>): Flag
    decreases |flagValues|
  {
    if |flagValues| == 0 then EventNone
    else ParseEventNames(flagValues[..|flagValues| - 1]) + ParseEventName(flagValues[|flagValues| - 1])
  }

  /** The names' flags, one per name. */
  function ParsedFlags(flagValues: seq<String>): (r: seq<Flag>)
    ensures |r| == |flagValues|
    ensures forall k :: 0 <= k < |r| ==> r[k] == ParseEventName(flagValues[k])
  {
    seq(|flagValues|, k requires 0 <= k < |flagValues| => ParseEventName(flagValues[k]))
  }

  /** Parsing a list is combining the names' flags. */
  lemma {:induction false} ParseEventNamesIsCombine(flagValues: seq<String>)
    ensures ParseEventNames(flagValues) == EventFlagCombine(ParsedFlags(flagValues))
    decreases |flagValues|
  {
    if |flagValues| > 0 {
      var init := flagValues[..|flagValues| - 1];
      ParseEventNamesIsCombine(init);
      assert ParsedFlags(flagValues)[..|flagValues| - 1] == ParsedFlags(init);
    }
  }

  /** A bit is set by a list of names exactly when one of the names sets it. */
  lemma ParsedBits(flagValues: seq<String>, b: nat)
    ensures b in ParseEventNames(flagValues) <==> exists k :: 0 <= k < |flagValues| && b in ParseEventName(flagValues[k])
  {
    var flags := ParsedFlags(flagValues);
    ParseEventNamesIsCombine(flagValues);
    CombineBits(flags, b);
    if b in ParseEventNames(flagValues) {
      var k :| 0 <= k < |flags| && b in flags[k];
      assert b in ParseEventName(flagValues[k]);
    }
    if exists k :: 0 <= k < |flagValues| && b in ParseEventName(flagValues[k]) {
      var k :| 0 <= k < |flagValues| && b in ParseEventName(flagValues[k]);
      assert b in flags[k];
    }
  }

  /** One "ALL" among the names sets every bit, whatever the others are. */
  lemma AllAmongNamesIsAll(flagValues: seq<String>, k: nat)
    requires k < |flagValues| && ParseEventName(flagValues[k]) == EventAll
    ensures ParseEventNames(flagValues) == EventAll
  {
    forall b: nat | b < 64 ensures b in ParseEventNames(flagValues) {
      ParsedBits(flagValues, b);
    }
  }

  /** `ParseEventFlagNameSet`: nothing for the empty value; "ALL" or "NONE" as
      the whole (cleaned) value; otherwise the union of the comma-separated names. */
  function ParseEventFlagNameSet(flagValue: String): (r: Flag)
    ensures |flagValue| == 0 ==> r == EventNone
    ensures |flagValue| > 0 && Trim(ToUpper(flagValue), NameTrimSet) == EventFlagNameAll ==> r == EventAll
    ensures |flagValue| > 0 && Trim(ToUpper(flagValue), NameTrimSet) == EventFlagNameNone ==> r == EventNone
  {
    if |flagValue| == 0 then EventNone
    else
      var cleaned := Trim(ToUpper(flagValue), NameTrimSet);
      if cleaned == EventFlagNameAll then EventAll
      else if cleaned == EventFlagNameNone then EventNone
      else ParseEventNames(SplitOn(flagValue, ','))
  }

  /** The names, visited in `order`, whose flags share a bit with `eventFlag`. */
  function NamesOf(order: seq<String>, eventFlag: Flag): (names: seq<String>)
    requires forall i :: 0 <= i < |order| ==> order[i] in EventFlagNames
    ensures forall k :: 0 <= k < |names| ==> names[k] in order
    decreases |order|
  {
    if |order| == 0 then []
    else
      var init := NamesOf(order[..|order| - 1], eventFlag);
      var last := order[|order| - 1];
      assert forall k :: 0 <= k < |init| ==> init[k] in order[..|order| - 1];
      if EventFlagAny(eventFlag, EventFlagNames[last]) then init + [last] else init
  }

  /** `ExpandEventNames`: "ALL" for every flag, "NONE" for none, otherwise the
      names of the flags that are set, in the order the map is visited, joined
      with commas. */
  function ExpandEventNames(eventFlag: Flag, order: seq<String>): (r: String)
    requires IterationOrder(order)
    ensures eventFlag == EventAll ==> r == EventFlagNameAll
    ensures eventFlag == EventNone ==> r == EventFlagNameNone
  {
    assert 0 in EventAll;
    if eventFlag == EventAll then EventFlagNameAll
    else if eventFlag == EventNone then EventFlagNameNone
    else Join(NamesOf(order, eventFlag), ",")
  }

  /** `EventsFromEnvironment` on the value of `LOG_EVENTS` (empty when unset):
      the parsed setting, or the union of the defaults. */
  function EventsFromEnvironment(envEventsFlag: String, defaultEvents: seq<Flag>): (r: Flag)
    ensures |envEventsFlag| > 0 ==> r == ParseEventFlagNameSet(envEventsFlag)
    ensures |envEventsFlag| == 0 ==> r == EventFlagCombine(defaultEvents)
  {
    if |envEventsFlag| > 0 then ParseEventFlagNameSet(envEventsFlag) else EventFlagCombine(defaultEvents)
  }
}
