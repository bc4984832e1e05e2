/** The autoformat trigger classifier of the editor component: the decision
    chain of `onEditorChange`, which looks at the text of the document's last
    block after every edit, and the decision chain of `handlePastedText`,
    which looks at a pasted string.  Each picks at most one editing command;
    the commands themselves belong to the editor framework and are kept
    opaque. */
module Autoformat {
  import opened JsString

  datatype Option<T> = None | Some(value: T)

  /** The editor-framework commands the classifier can ask for. */
  datatype Transform =
    | ToggleBlock(blockType: string)       // toggle the block type of the selection
    | ToggleInline(style: string)          // toggle an inline style at the selection
    | SplitAndSetBlock(blockType: string)  // split the block, then retype the block after the split

  const HeaderOne: Transform := ToggleBlock("header-one")
  const Bold: Transform := ToggleInline("BOLD")
  const RedColor: Transform := ToggleInline("RED_COLOR")
  const Underline: Transform := ToggleInline("UNDERLINE")
  const CodeBlock: Transform := SplitAndSetBlock("code-block")

  /** A marker and the command it triggers. */
  datatype Rule = Rule(marker: string, transform: Transform)

  /** The five rules of `onEditorChange`, in the order the source tests them. */
  const BlockRules: seq<Rule> := [
    Rule("#", HeaderOne),
    Rule("*", Bold),
    Rule("**", RedColor),
    Rule("***", Underline),
    Rule("```", CodeBlock)
  ]

  /** The test of every branch of `onEditorChange`:
      `text.endsWith(marker + " ") && text.trim() === marker`. */
  predicate Fires(text: string, marker: string) {
    EndsWith(text, marker + " ") && Trim(text) == marker
  }

  /** The shape of a text that fires `marker`: zero or more whitespace
      characters, then the marker, then one space. */
  predicate TypedMarker(text: string, marker: string) {
    var k := |text| - |marker| - 1;
    0 <= k && text[k..] == marker + " " && AllWhitespace(text[..k])
  }

  /** The classifier of `onEditorChange`: the command for the text of the
      last block, if any. */
  function BlockMatcher(lastBlockText: string): Option<Transform> {
    if Fires(lastBlockText, "#") then Some(HeaderOne)
    else if Fires(lastBlockText, "*") then Some(Bold)
    else if Fires(lastBlockText, "**") then Some(RedColor)
    else if Fires(lastBlockText, "***") then Some(Underline)
    else if Fires(lastBlockText, "```") then Some(CodeBlock)
    else None
  }

  /** A table of rules read top to bottom, first match wins: the reading of
      the chain as an ordered pattern table. */
  function FirstMatch(rules: seq<Rule>, text: string): (r: Option<Transform>)
    ensures r.Some? ==> exists k :: 0 <= k < |rules| && Fires(text, rules[k].marker) && rules[k].transform == r.value &&
                                    forall j :: 0 <= j < k ==> !Fires(text, rules[j].marker)
    ensures r.None? ==> forall k :: 0 <= k < |rules| ==> !Fires(text, rules[k].marker)
  {
    if rules == [] then None
    else if Fires(text, rules[0].marker) then Some(rules[0].transform)
    else
      var r := FirstMatch(rules[1..], text);
      assert forall k :: 1 <= k < |rules| ==> rules[k] == rules[1..][k - 1];
      assert r.Some? ==> exists k :: 1 <= k < |rules| && Fires(text, rules[k].marker) && rules[k].transform == r.value &&
                                     forall j :: 0 <= j < k ==> !Fires(text, rules[j].marker);
      r
  }

  /** Every marker is non-empty and has no whitespace at either end. */
  lemma MarkersWellFormed()
    ensures forall k :: 0 <= k < |BlockRules| ==>
      BlockRules[k].marker != [] && NoEdgeWhitespace(BlockRules[k].marker)
  {
    assert !IsWhitespace('#') && !IsWhitespace('*') && !IsWhitespace('`');
  }

  /** A marker with no whitespace at its ends fires exactly on the texts
      made of whitespace, the marker and one space: `"#foo "` and `"**x "`
      fire nothing, `"  # "` fires the header rule. */
  lemma TriggerShape(text: string, marker: string)
    requires marker != [] && NoEdgeWhitespace(marker)
    ensures Fires(text, marker) <==> TypedMarker(text, marker)
  {
    var k := |text| - |marker| - 1;
    assert IsWhitespace(' ');
    if TypedMarker(text, marker) {
      assert text == text[..k] + marker + " ";
      TrimPadded(text[..k], marker, " ");
    }
    if Fires(text, marker) {
      var n := |marker|;
      assert text[k..] == marker + " ";
      assert text[|text| - 1..] == " ";
      assert text[|text| - 2] == text[k..][n - 1] == marker[n - 1];
      TrimEndUnique(text, |text| - 1);
      var e := text[..|text| - 1];
      TrimStartSpec(e);
      assert e[..k] == text[..k];
    }
  }

  /** The five markers are pairwise distinct. */
  lemma MarkersDistinct(i: int, j: int)
    requires 0 <= i < |BlockRules| && 0 <= j < |BlockRules|
    requires BlockRules[i].marker == BlockRules[j].marker
    ensures i == j
  {
  }

  /** No text fires two different rules, so at most one command is chosen
      and the order of the branches does not matter. */
  lemma AtMostOneRuleFires(text: string, i: int, j: int)
    requires 0 <= i < |BlockRules| && 0 <= j < |BlockRules|
    requires Fires(text, BlockRules[i].marker) && Fires(text, BlockRules[j].marker)
    ensures i == j
  {
    MarkersDistinct(i, j);
  }

  /** One step of reading a rule table. */
  lemma FirstMatchCons(rule: Rule, rest: seq<Rule>, text: string)
    ensures FirstMatch([rule] + rest, text)
      == if Fires(text, rule.marker) then Some(rule.transform) else FirstMatch(rest, text)
  {
    assert ([rule] + rest)[1..] == rest;
  }

  /** The chain of `onEditorChange` is the rule table read in source order. */
  lemma BlockMatcherIsTable(text: string)
    ensures BlockMatcher(text) == FirstMatch(BlockRules, text)
  {
    var rs := BlockRules;
    assert rs == [rs[0]] + ([rs[1]] + ([rs[2]] + ([rs[3]] + ([rs[4]] + []))));
    FirstMatchCons(rs[4], [], text);
    FirstMatchCons(rs[3], [rs[4]] + [], text);
    FirstMatchCons(rs[2], [rs[3]] + ([rs[4]] + []), text);
    FirstMatchCons(rs[1], [rs[2]] + ([rs[3]] + ([rs[4]] + [])), text);
    FirstMatchCons(rs[0], [rs[1]] + ([rs[2]] + ([rs[3]] + ([rs[4]] + []))), text);
  }

  /** Which texts fire which command: the command of rule `k` is chosen
      exactly when the text is whitespace, rule `k`'s marker and a space,
      and no command is chosen when the text has none of these shapes. */
  lemma BlockMatcherSpec(text: string, tr: Transform)
    ensures BlockMatcher(text) == Some(tr) <==>
      exists k :: 0 <= k < |BlockRules| && TypedMarker(text, BlockRules[k].marker) && BlockRules[k].transform == tr
    ensures BlockMatcher(text) == None <==>
      forall k :: 0 <= k < |BlockRules| ==> !TypedMarker(text, BlockRules[k].marker)
  {
    MarkersWellFormed();
    forall k | 0 <= k < |BlockRules|
      ensures Fires(text, BlockRules[k].marker) <==> TypedMarker(text, BlockRules[k].marker)
    {
      TriggerShape(text, BlockRules[k].marker);
    }
    BlockMatcherIsTable(text);
    var r := FirstMatch(BlockRules, text);
    if r.Some? {
      var k :| 0 <= k < |BlockRules| && Fires(text, BlockRules[k].marker) && BlockRules[k].transform == r.value;
      forall j | 0 <= j < |BlockRules| && TypedMarker(text, BlockRules[j].marker)
        ensures BlockRules[j].transform == r.value
      {
        AtMostOneRuleFires(text, j, k);
      }
    }
  }

  /** All rules of `table` that fire on `text` ask for the same command. */
  predicate Unambiguous(table: seq<Rule>, text: string) {
    forall i, j :: 0 <= i < |table| && 0 <= j < |table| && Fires(text, table[i].marker) && Fires(text, table[j].marker)
      ==> table[i].transform == table[j].transform
  }

  /** When a table is unambiguous on a text, reading any reordering of it
      gives the same answer. */
  lemma ReorderedTableAgrees(rules: seq<Rule>, table: seq<Rule>, text: string)
    requires multiset(rules) == multiset(table) && Unambiguous(table, text)
    ensures FirstMatch(rules, text) == FirstMatch(table, text)
  {
    var r := FirstMatch(rules, text);
    var b := FirstMatch(table, text);
    if r.Some? {
      var k :| 0 <= k < |rules| && Fires(text, rules[k].marker) && rules[k].transform == r.value;
      assert rules[k] in multiset(table);
      var i :| 0 <= i < |table| && table[i] == rules[k];
    } else {
      forall j | 0 <= j < |table|
        ensures !Fires(text, table[j].marker)
      {
        assert table[j] in multiset(rules);
      }
    }
  }

  /** Any reordering of the rule table classifies every text the same way
      as the source's chain. */
  lemma OrderIrrelevant(rules: seq<Rule>, text: string)
    requires multiset(rules) == multiset(BlockRules)
    ensures FirstMatch(rules, text) == BlockMatcher(text)
  {
    forall i, j | 0 <= i < |BlockRules| && 0 <= j < |BlockRules| && Fires(text, BlockRules[i].marker) && Fires(text, BlockRules[j].marker)
      ensures BlockRules[i].transform == BlockRules[j].transform
    {
      AtMostOneRuleFires(text, i, j);
    }
    ReorderedTableAgrees(rules, BlockRules, text);
    BlockMatcherIsTable(text);
  }

  /** Testing the longest star marker first (`***`, `**`, `*`, `#`, then the
      code fence) gives the same result. */
  lemma LongestMarkerFirstAgrees(text: string)
    ensures FirstMatch([BlockRules[3], BlockRules[2], BlockRules[1], BlockRules[0], BlockRules[4]], text)
      == BlockMatcher(text)
  {
    var rs := BlockRules;
    var reordered := [rs[3], rs[2], rs[1], rs[0], rs[4]];
    assert reordered == [rs[3], rs[2], rs[1], rs[0]] + [rs[4]];
    assert rs == [rs[0], rs[1], rs[2], rs[3]] + [rs[4]];
    assert multiset(reordered) == multiset(rs);
    OrderIrrelevant(reordered, text);
  }

  /** A marker followed by one space trims to the marker. */
  lemma MarkerSpaceTrims(k: int)
    requires 0 <= k < |BlockRules|
    ensures Trim(BlockRules[k].marker + " ") == BlockRules[k].marker
  {
    MarkersWellFormed();
    var m := BlockRules[k].marker;
    assert IsWhitespace(' ');
    assert [] + m + " " == m + " ";
    TrimPadded([], m, " ");
  }

  /** Each marker followed by one space fires its own command: `"# "` the
      header, `"* "` bold, `"** "` red, `"*** "` underline and `"``` "` the
      code block. */
  lemma ExactTriggers(k: int)
    requires 0 <= k < |BlockRules|
    ensures BlockMatcher(BlockRules[k].marker + " ") == Some(BlockRules[k].transform)
  {
    var m := BlockRules[k].marker;
    var t := m + " ";
    assert t[|t| - |m| - 1..] == t && t[..|t| - |m| - 1] == [];
    assert TypedMarker(t, m);
    BlockMatcherSpec(t, BlockRules[k].transform);
  }

  /** The longest star marker is not taken for a shorter one although the
      chain tests the shorter ones first. */
  lemma TripleStarIsUnderline()
    ensures BlockMatcher("*** ") == Some(Underline)
  {
    ExactTriggers(3);
  }

  /** Whitespace before a marker does not stop it from firing. */
  lemma LeadingWhitespaceFires()
    ensures BlockMatcher("  # ") == Some(HeaderOne)
    ensures BlockMatcher("\t*** ") == Some(Underline)
  {
    assert IsWhitespace(' ') && IsWhitespace('\t');
    assert BlockMatcher("  # ") == Some(HeaderOne) by {
      assert "  # "[2..] == BlockRules[0].marker + " " && "  # "[..2] == "  ";
      assert TypedMarker("  # ", BlockRules[0].marker);
      BlockMatcherSpec("  # ", HeaderOne);
    }
    assert "\t*** "[1..] == BlockRules[3].marker + " " && "\t*** "[..1] == "\t";
    assert TypedMarker("\t*** ", BlockRules[3].marker);
    BlockMatcherSpec("\t*** ", Underline);
  }

  /** Text sharing a prefix with a marker, or anything other than whitespace
      before a marker, fires nothing. */
  lemma PrefixSharingTextsDoNotFire()
    ensures BlockMatcher("#foo ") == None
    ensures BlockMatcher("**x ") == None
    ensures BlockMatcher("hello# ") == None
  {
  }

  /** What `handlePastedText` tells the editor: that it took care of the
      paste with a command, or that the default paste should happen. */
  datatype PasteOutcome = Handled(transform: Transform) | NotHandled

  /** The paste classifier as written.  Its last test,
      `text.trim() === "``` "`, can never hold. */
  function PasteMatcher(text: string): PasteOutcome {
    if text == "# " then Handled(HeaderOne)
    else if text == "* " then Handled(Bold)
    else if text == "** " then Handled(RedColor)
    else if text == "*** " then Handled(Underline)
    else if Trim(text) == "``` " then Handled(CodeBlock)
    else NotHandled
  }

  /** No string trims to `"``` "`: the code-block branch of the paste
      classifier is dead. */
  lemma PasteCodeBranchDead(text: string)
    ensures Trim(text) != "``` "
  {
    TrimSpec(text);
    assert IsWhitespace("``` "[3]);
  }

  /** The paste classifier handles a paste exactly when the whole pasted
      string is one of the four hash/star markers followed by a space, and
      then with that marker's command. */
  lemma PasteHandledIff(text: string, tr: Transform)
    ensures PasteMatcher(text) == Handled(tr) <==>
      exists k :: 0 <= k < 4 && text == BlockRules[k].marker + " " && tr == BlockRules[k].transform
    ensures PasteMatcher(text) == NotHandled <==> text !in {"# ", "* ", "** ", "*** "}
  {
    PasteCodeBranchDead(text);
    assert BlockRules[0].marker + " " == "# " && BlockRules[1].marker + " " == "* ";
    assert BlockRules[2].marker + " " == "** " && BlockRules[3].marker + " " == "*** ";
  }

  /** Paste compares the whole string: `"# "` is handled, but text before
      the marker, even whitespace, stops it from firing. */
  lemma PasteWholeString()
    ensures PasteMatcher("# ") == Handled(HeaderOne)
    ensures PasteMatcher("hello# ") == NotHandled
    ensures PasteMatcher("  # ") == NotHandled
  {
  }

  /** Pasting the code-block marker is left to the editor's default paste. */
  lemma PasteCodeFenceNotHandled()
    ensures PasteMatcher("``` ") == NotHandled
  {
    PasteCodeBranchDead("``` ");
  }

  /** A paste the classifier handles is one the block classifier would turn
      into the same command: paste matching is the stricter of the two. */
  lemma PasteStricterThanBlock(text: string, tr: Transform)
    requires PasteMatcher(text) == Handled(tr)
    ensures BlockMatcher(text) == Some(tr)
  {
    PasteHandledIff(text, tr);
    var k :| 0 <= k < 4 && text == BlockRules[k].marker + " " && tr == BlockRules[k].transform;
    ExactTriggers(k);
  }

  /** The paste classifier with the code-block test as evidently intended:
      the trimmed paste equals the marker itself. */
  function PasteMatcherIntended(text: string): PasteOutcome {
    if text == "# " then Handled(HeaderOne)
    else if text == "* " then Handled(Bold)
    else if text == "** " then Handled(RedColor)
    else if text == "*** " then Handled(Underline)
    else if Trim(text) == "```" then Handled(CodeBlock)
    else NotHandled
  }

  /** The intended paste classifier inserts a code block exactly for pastes
      that trim to the marker, and otherwise agrees with the classifier as
      written. */
  lemma PasteIntendedSpec(text: string)
    ensures PasteMatcherIntended(text) == Handled(CodeBlock) <==> Trim(text) == "```"
    ensures Trim(text) != "```" ==> PasteMatcherIntended(text) == PasteMatcher(text)
  {
    PasteCodeBranchDead(text);
    forall k | 0 <= k < 4 && text == BlockRules[k].marker + " "
      ensures Trim(text) != "```"
    {
      MarkerSpaceTrims(k);
    }
    assert BlockRules[0].marker + " " == "# " && BlockRules[1].marker + " " == "* ";
    assert BlockRules[2].marker + " " == "** " && BlockRules[3].marker + " " == "*** ";
  }

  /** With the intended test, pasting `"``` "` inserts a code block. */
  lemma PasteIntendedHandlesCodeFence()
    ensures PasteMatcherIntended("``` ") == Handled(CodeBlock)
  {
    MarkerSpaceTrims(4);
  }
}
