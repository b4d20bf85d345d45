/** The names of the event flags read back: what `ExpandEventNames` writes,
    `ParseEventFlagNameSet` parses to the flags it named. */
module EventNameLaws {
  import opened GoStrings
  import opened EventFlags

  predicate NameChar(c: char) { 'A' <= c <= 'Z' || c == '_' }

  /** The shape every flag name has: upper-case letters and underscores,
      starting and ending with a letter, at least four long, and "INFO" the
      only one of length four. */
  predicate WellShapedName(name: String) {
    && |name| >= 4
    && (forall i :: 0 <= i < |name| ==> NameChar(name[i]))
    && IsAsciiUpper(name[0]) && IsAsciiUpper(name[|name| - 1])
    && (|name| == 4 ==> name[0] == 'I')
  }

  lemma NamesShaped()
    ensures forall name :: name in EventFlagNames ==> WellShapedName(name)
  {
    assert WellShapedName("FATAL") && WellShapedName("ERROR") && WellShapedName("WARNING");
    assert WellShapedName("DEBUG") && WellShapedName("INFO") && WellShapedName("REQUEST_START");
    assert WellShapedName("REQUEST") && WellShapedName("POST_BODY") && WellShapedName("RESPONSE");
    assert WellShapedName("USER_ERROR");
  }

  /** Each name stands for one bit: a flag set holds all of it or none of it. */
  lemma AllOrNothing(name: String, eventFlag: Flag)
    requires name in EventFlagNames
    ensures EventFlagAny(eventFlag, EventFlagNames[name]) ==> EventFlagNames[name] <= eventFlag
    ensures !EventFlagAny(eventFlag, EventFlagNames[name]) ==> EventFlagNames[name] !! eventFlag
  {
    NamedFlagsAreDistinctBits();
    var j :| 0 <= j < 10 && DeclaredNames[j] == name;
    assert EventFlagNames[name] == {j + 2};
  }

  /** A well-shaped name is its own cleaned form and is neither "ALL" nor "NONE". */
  lemma ShapedNameIsClean(name: String)
    requires WellShapedName(name)
    ensures Trim(ToUpper(name), NameTrimSet) == name
    ensures name != EventFlagNameAll && name != EventFlagNameNone
    ensures ',' !in name
  {
    UpperUnchanged(name);
    TrimUnchanged(name, NameTrimSet);
    if |name| == 4 { assert name[0] == 'I' != EventFlagNameNone[0]; }
    assert forall i :: 0 <= i < |name| ==> name[i] != ',';
  }

  /** Each name of the map parses to its own flag. */
  lemma NamesParse(name: String)
    requires name in EventFlagNames
    ensures ParseEventName(name) == EventFlagNames[name]
    ensures ',' !in name
  {
    NamesShaped();
    ShapedNameIsClean(name);
    CleanedNameParses(name, name);
  }

  /** A value whose cleaned form is a flag name parses to that name's flag. */
  lemma CleanedNameParses(flagValue: String, name: String)
    requires name in EventFlagNames && name != EventFlagNameAll && name != EventFlagNameNone
    requires Trim(ToUpper(flagValue), NameTrimSet) == name
    ensures ParseEventName(flagValue) == EventFlagNames[name]
  {
  }

  /** The union of the flags of the names in `order`. */
  function MaskOf(order: seq<String>): Flag
    requires forall i :: 0 <= i < |order| ==> order[i] in EventFlagNames
    decreases |order|
  {
    if |order| == 0 then {} else MaskOf(order[..|order| - 1]) + EventFlagNames[order[|order| - 1]]
  }

  /** A bit is in the union when one of the names has it. */
  lemma {:induction false} MaskBits(order: seq<String>, b: nat)
    requires forall i :: 0 <= i < |order| ==> order[i] in EventFlagNames
    ensures b in MaskOf(order) <==> exists i :: 0 <= i < |order| && b in EventFlagNames[order[i]]
    decreases |order|
  {
    if |order| > 0 {
      var init := order[..|order| - 1];
      MaskBits(init, b);
      if exists i :: 0 <= i < |init| && b in EventFlagNames[init[i]] {
        var i :| 0 <= i < |init| && b in EventFlagNames[init[i]];
        assert order[i] == init[i];
      }
      if exists i :: 0 <= i < |order| && b in EventFlagNames[order[i]] {
        var i :| 0 <= i < |order| && b in EventFlagNames[order[i]];
        if i < |order| - 1 { assert init[i] == order[i]; }
      }
    }
  }

  /** Whatever the order, all names together are bits 2 to 11. */
  lemma OrderMask(order: seq<String>)
    requires IterationOrder(order)
    ensures MaskOf(order) == NamedMask
  {
    NamedFlagsAreDistinctBits();
    forall b: nat ensures b in MaskOf(order) <==> b in NamedMask {
      MaskBits(order, b);
      if b in MaskOf(order) {
        var i :| 0 <= i < |order| && b in EventFlagNames[order[i]];
        var j :| 0 <= j < 10 && DeclaredNames[j] == order[i];
      }
      if b in NamedMask {
        var name := DeclaredNames[b - 2];
        assert name in order;
        var i :| 0 <= i < |order| && order[i] == name;
      }
    }
  }

  /** Parsing one more name adds that name's flags. */
  lemma ParseEventNamesAppend(before: seq<String>, name: String)
    ensures ParseEventNames(before + [name]) == ParseEventNames(before) + ParseEventName(name)
  {
    var all := before + [name];
    assert all[..|all| - 1] == before;
    assert all[|all| - 1] == name;
    assert ParseEventNames(all) == ParseEventNames(all[..|all| - 1]) + ParseEventName(all[|all| - 1]);
  }

  lemma MaskStepSet(x: set<nat>, m: set<nat>, f: set<nat>)
    requires f <= x
    ensures x * (m + f) == x * m + f
  {
  }

  lemma MaskStepUnset(x: set<nat>, m: set<nat>, f: set<nat>)
    requires f !! x
    ensures x * (m + f) == x * m
  {
  }

  /** Parsing the names, visited in `order`, whose flags are set gives back
      the set flags among those names' flags. */
  lemma {:induction false} ParseNamesOf(order: seq<String>, eventFlag: Flag)
    requires forall i :: 0 <= i < |order| ==> order[i] in EventFlagNames
    ensures ParseEventNames(NamesOf(order, eventFlag)) == eventFlag * MaskOf(order)
    decreases |order|
  {
    if |order| > 0 {
      var init := order[..|order| - 1];
      var last := order[|order| - 1];
      ParseNamesOf(init, eventFlag);
      var before := NamesOf(init, eventFlag);
      var flag := EventFlagNames[last];
      assert MaskOf(order) == MaskOf(init) + flag;
      AllOrNothing(last, eventFlag);
      if EventFlagAny(eventFlag, flag) {
        assert NamesOf(order, eventFlag) == before + [last];
        ParseEventNamesAppend(before, last);
        NamesParse(last);
        MaskStepSet(eventFlag, MaskOf(init), flag);
      } else {
        assert NamesOf(order, eventFlag) == before;
        MaskStepUnset(eventFlag, MaskOf(init), flag);
      }
    }
  }

  /** Joined table names are upper-case letters, underscores and commas, and start with the first name. */
  lemma {:induction false} JoinedNames(names: seq<String>)
    requires |names| > 0
    requires forall k :: 0 <= k < |names| ==> WellShapedName(names[k])
    ensures |Join(names, ",")| >= |names[0]| >= 4
    ensures Join(names, ",")[..|names[0]|] == names[0]
    ensures forall i :: 0 <= i < |Join(names, ",")| ==> NameChar(Join(names, ",")[i]) || Join(names, ",")[i] == ','
    decreases |names|
  {
    if |names| > 1 {
      var rest := names[1..];
      JoinedNames(rest);
      var t := Join(rest, ",");
      var text := Join(names, ",");
      assert text == names[0] + "," + t;
      forall i | 0 <= i < |text| ensures NameChar(text[i]) || text[i] == ',' {
        if i > |names[0]| {
          assert text[i] == t[i - |names[0]| - 1];
        }
      }
    }
  }

  /** "ALL" reads back as every flag, and "NONE" as no flag. */
  lemma AllParses(name: String)
    requires name == EventFlagNameAll
    ensures ParseEventFlagNameSet(name) == EventAll
  {
    assert forall i :: 0 <= i < |name| ==> IsAsciiUpper(name[i]);
    CleanName(name);
  }

  lemma NoneParses(name: String)
    requires name == EventFlagNameNone
    ensures ParseEventFlagNameSet(name) == EventNone
  {
    assert forall i :: 0 <= i < |name| ==> IsAsciiUpper(name[i]);
    CleanName(name);
  }

  /** A name of upper-case letters is its own cleaned form. */
  lemma CleanName(name: String)
    requires forall i :: 0 <= i < |name| ==> IsAsciiUpper(name[i])
    ensures Trim(ToUpper(name), NameTrimSet) == name
  {
    UpperUnchanged(name);
    TrimUnchanged(name, NameTrimSet);
  }

  /** A non-empty text whose cleaned form is neither "ALL" nor "NONE" reads
      as the names it splits into. */
  lemma ListParses(text: String, names: seq<String>)
    requires |text| > 0
    requires SplitOn(text, ',') == names
    requires Trim(ToUpper(text), NameTrimSet) != EventFlagNameAll
    requires Trim(ToUpper(text), NameTrimSet) != EventFlagNameNone
    ensures ParseEventFlagNameSet(text) == ParseEventNames(names)
  {
  }

  /** Upper-case letters, underscores and commas are left alone by the cleaning. */
  lemma NameTextIsClean(text: String)
    requires forall i :: 0 <= i < |text| ==> NameChar(text[i]) || text[i] == ','
    ensures Trim(ToUpper(text), NameTrimSet) == text
  {
    assert forall i :: 0 <= i < |text| ==> !IsAsciiLower(text[i]);
    UpperUnchanged(text);
    assert |text| > 0 ==> text[0] !in NameTrimSet && text[|text| - 1] !in NameTrimSet;
    TrimUnchanged(text, NameTrimSet);
  }

  /** Well-shaped names joined with commas form a text that is its own
      cleaned form, is neither "ALL" nor "NONE", and splits back into the names. */
  lemma JoinedText(names: seq<String>, text: String)
    requires |names| > 0
    requires forall k :: 0 <= k < |names| ==> WellShapedName(names[k])
    requires text == Join(names, ",")
    ensures |text| > 0 && SplitOn(text, ',') == names
    ensures Trim(ToUpper(text), NameTrimSet) == text
    ensures text != EventFlagNameAll && text != EventFlagNameNone
  {
    forall k | 0 <= k < |names| ensures ',' !in names[k] {
      ShapedNameIsClean(names[k]);
    }
    SplitOnJoin(names, ',');
    JoinedNames(names);
    NameTextIsClean(text);
    assert text[0] == names[0][0];
    if |text| == 4 { assert names[0][0] == 'I'; }
  }

  /** The named flags of a set other than "ALL" and "NONE" read back from its expansion. */
  lemma NamedRoundTrip(eventFlag: Flag, order: seq<String>)
    requires IterationOrder(order)
    requires eventFlag != EventAll && eventFlag != EventNone
    ensures ParseEventFlagNameSet(Join(NamesOf(order, eventFlag), ",")) == eventFlag * NamedMask
  {
    var names := NamesOf(order, eventFlag);
    ParseNamesOf(order, eventFlag);
    OrderMask(order);
    if |names| > 0 {
      JoinedListParses(names);
    }
  }

  /** A non-empty list of table names, joined with commas, parses name by name. */
  lemma JoinedListParses(names: seq<String>)
    requires |names| > 0
    requires forall k :: 0 <= k < |names| ==> names[k] in EventFlagNames
    ensures ParseEventFlagNameSet(Join(names, ",")) == ParseEventNames(names)
  {
    var text := Join(names, ",");
    NamesShaped();
    JoinedText(names, text);
    ListParses(text, names);
  }

  /** Expanding a flag set and parsing the text back gives the named flags it
      holds, whatever order the names were visited in; for every flag but
      "ALL", anything outside the named bits is lost. */
  lemma ParseExpandRoundTrip(eventFlag: Flag, order: seq<String>)
    requires IterationOrder(order)
    ensures eventFlag == EventAll ==> ParseEventFlagNameSet(ExpandEventNames(eventFlag, order)) == EventAll
    ensures eventFlag != EventAll ==> ParseEventFlagNameSet(ExpandEventNames(eventFlag, order)) == eventFlag * NamedMask
  {
    var text := ExpandEventNames(eventFlag, order);
    if eventFlag == EventAll {
      AllParses(text);
    } else if eventFlag == EventNone {
      NoneParses(text);
    } else {
      assert text == Join(NamesOf(order, eventFlag), ",");
      NamedRoundTrip(eventFlag, order);
    }
  }

  /** Expanding in two different orders reads back the same. */
  lemma ExpandOrderDoesNotMatter(eventFlag: Flag, order1: seq<String>, order2: seq<String>)
    requires IterationOrder(order1) && IterationOrder(order2)
    ensures ParseEventFlagNameSet(ExpandEventNames(eventFlag, order1)) == ParseEventFlagNameSet(ExpandEventNames(eventFlag, order2))
  {
    ParseExpandRoundTrip(eventFlag, order1);
    ParseExpandRoundTrip(eventFlag, order2);
  }

}
