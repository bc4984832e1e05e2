# Autoformat trigger classifier of a Draft.js demo editor

The editor component (`src/App.jsx`) turns a few markdown-like markers into
formatting commands. After every edit, `onEditorChange` looks at the text
of the document's last block. If that text is zero or more whitespace
characters, then a marker, then one space, it asks the editor framework
for one command:

| marker | command |
|---|---|
| `#` | toggle block type `header-one` |
| `*` | toggle inline style `BOLD` |
| `**` | toggle inline style `RED_COLOR` |
| `***` | toggle inline style `UNDERLINE` |
| ```` ``` ```` | split the block, then make the new block a `code-block` |

Each test in the chain is `text.endsWith(marker + " ") && text.trim() === marker`.
`handlePastedText` looks at a pasted string instead. It compares the whole
string with `"# "`, `"* "`, `"** "` and `"*** "`, and it answers "handled"
or "not-handled". `blockStyleFn` gives code blocks the CSS class
`code-block-style` and every other block no class.

The model has three modules:

- `JsString` (`JsString.dfy`) models JavaScript's `endsWith` and `trim`.
  `Trim` strips the ECMAScript WhiteSpace and LineTerminator characters
  (section 12.2 and 12.3 of ECMA-262) from both ends.
- `Autoformat` (`Autoformat.dfy`) holds the editing commands as an opaque
  datatype `Transform`. It also holds the rule table `BlockRules`, the chain
  `BlockMatcher` exactly as the source writes it, a first-match reading
  `FirstMatch` of any rule table, the paste chain `PasteMatcher` as written,
  and a corrected `PasteMatcherIntended`.
- `BlockStyle` (`BlockStyle.dfy`) models `blockStyleFn` over the block's
  type string.

What is proved:

- A rule fires exactly on text made of whitespace, the marker and one
  space. So `"#foo "`, `"**x "` and `"hello# "` fire nothing, and
  `"  # "` fires the header rule.
- No text fires two rules. So the order of the `else if` branches does not
  matter: any reordering of the table gives the same classification,
  in particular the longest-marker-first order.
- Paste needs the whole string to be one of the four hash/star triggers.
- The code-block branch of paste can never fire.

The code tests `"# "`, `"* "`, `"** "`, `"*** "` and then ```` "``` " ````,
shortest star marker first. `LongestMarkerFirstAgrees` and
`OrderIrrelevant` show that testing the longest star marker first gives
the same classification. The code-block rule tests `endsWith` as well as
`trim`.

## Model

| member | source | states |
|---|---|---|
| `JsString.EndsWith` | src/App.jsx:80-95 | `endsWith` as a suffix test; it has no contract of its own, and `Autoformat.TriggerShape` gives the meaning of the test it takes part in |
| `JsString.Trim` | src/App.jsx:80-96 | `trim()`; it has no contract of its own, and `JsString.TrimSpec`, `JsString.TrimPadded` and `JsString.TrimIdempotent` give its meaning |
| `JsString.TrimStartSpec` | src/App.jsx:80-96 | the leading-whitespace strip keeps a suffix of the string, drops only whitespace, and what it keeps does not start with whitespace |
| `JsString.TrimEndSpec` | src/App.jsx:80-96 | the trailing-whitespace strip keeps a prefix of the string, drops only whitespace, and what it keeps does not end with whitespace |
| `JsString.TrimSpec` | src/App.jsx:80-96 | `trim()` returns a piece of the string with no whitespace at either end, and only whitespace surrounds it |
| `JsString.TrimPadded` | src/App.jsx:80-96 | trimming a non-whitespace-edged string padded with whitespace on both sides gives that string back |
| `JsString.TrimIdempotent` | src/App.jsx:80-96 | trimming twice is the same as trimming once |
| `JsString.TrimNeverEndsInWhitespace` | src/App.jsx:137 | a trimmed string never ends with a suffix whose last character is whitespace |
| `Autoformat.BlockMatcher` | src/App.jsx:80-114 | the `else if` chain of `onEditorChange`; it has no contract of its own, and `Autoformat.BlockMatcherSpec` gives its meaning |
| `Autoformat.FirstMatch` | src/App.jsx:80-114 | reading a rule table first-match-wins returns the command of a rule that fires and before which no rule fires, or nothing exactly when no rule fires |
| `Autoformat.MarkersWellFormed` | src/App.jsx:80-97 | every marker is non-empty and has no whitespace at either end |
| `Autoformat.TriggerShape` | src/App.jsx:80-97 | `endsWith(m + " ") && trim() === m` holds exactly when the text is zero or more whitespace characters, then `m`, then one space |
| `Autoformat.AtMostOneRuleFires` | src/App.jsx:80-97 | no text fires two different rules of the chain |
| `Autoformat.BlockMatcherIsTable` | src/App.jsx:80-114 | the `else if` chain is the rule table read in source order |
| `Autoformat.BlockMatcherSpec` | src/App.jsx:80-114 | the chain picks a rule's command exactly when the text has that rule's trigger shape, and picks nothing exactly when the text has no rule's shape |
| `Autoformat.ReorderedTableAgrees` | src/App.jsx:80-114 | a reordering of a table in which all firing rules agree classifies every text as the table does |
| `Autoformat.OrderIrrelevant` | src/App.jsx:80-114 | every reordering of the five rules classifies every text as the source's chain does |
| `Autoformat.LongestMarkerFirstAgrees` | src/App.jsx:80-114 | testing `***`, `**`, `*`, `#`, then the code fence gives the same result as the source's order |
| `Autoformat.MarkerSpaceTrims` | src/App.jsx:80-96 | a marker followed by one space trims to the marker |
| `Autoformat.ExactTriggers` | src/App.jsx:80-106 | each marker followed by one space fires its own command |
| `Autoformat.TripleStarIsUnderline` | src/App.jsx:83-93 | `"*** "` gives `UNDERLINE`, not `BOLD` or `RED_COLOR`, although the shorter star rules are tested first |
| `Autoformat.LeadingWhitespaceFires` | src/App.jsx:80-93 | `"  # "` gives the header and a tab before `"*** "` still gives underline |
| `Autoformat.PrefixSharingTextsDoNotFire` | src/App.jsx:80-114 | `"#foo "`, `"**x "` and `"hello# "` give no command |
| `Autoformat.PasteMatcher` | src/App.jsx:121-156 | the `handlePastedText` chain as written; it has no contract of its own, and `Autoformat.PasteHandledIff` gives its meaning |
| `Autoformat.PasteCodeBranchDead` | src/App.jsx:137 | no string trims to ```` "``` " ````, so the paste code-block branch never fires |
| `Autoformat.PasteHandledIff` | src/App.jsx:121-156 | a paste is handled, with a rule's command, exactly when the whole pasted string is one of the four hash/star markers followed by a space; otherwise it is not handled |
| `Autoformat.PasteWholeString` | src/App.jsx:121-136 | pasting exactly `"# "` gives the header, but `"hello# "` and `"  # "` are not handled |
| `Autoformat.PasteCodeFenceNotHandled` | src/App.jsx:137-156 | pasting ```` "``` " ```` is not handled |
| `Autoformat.PasteStricterThanBlock` | src/App.jsx:121-136 | every paste that is handled is a text the block chain maps to the same command |
| `Autoformat.PasteMatcherIntended` | src/App.jsx:137 | the paste chain with the corrected code-block test; it has no contract of its own, and `Autoformat.PasteIntendedSpec` gives its meaning |
| `Autoformat.PasteIntendedSpec` | src/App.jsx:137 | with the corrected test, a paste inserts a code block exactly when it trims to the code fence, and otherwise the corrected and the written paste chains agree |
| `Autoformat.PasteIntendedHandlesCodeFence` | src/App.jsx:137 | with the corrected test, pasting ```` "``` " ```` inserts a code block |
| `BlockStyle.BlockStyleFn` | src/App.jsx:16-22 | the class is `code-block-style` exactly for `code-block` blocks and empty for every other type |

## Findings

| source | as written | input that shows it | evidently intended | confidence | as-written member | corrected member |
|---|---|---|---|---|---|---|
| src/App.jsx:137 | the paste code-block branch tests ```` text.trim() === "``` " ````, which no string satisfies, because `trim` removes the trailing space | pasting ```` "``` " ```` is not handled and no code block is inserted | the trimmed paste equals the marker, ```` text.trim() === "```" ```` | not executed; high (the branch can never fire) | `Autoformat.PasteCodeFenceNotHandled` | `Autoformat.PasteIntendedHandlesCodeFence` |

## Left out

- The effect of the commands on the document is not modelled. Draft.js
  `RichUtils.toggleBlockType`, `toggleInlineStyle`, `Modifier.splitBlock`,
  `setBlockType`, `getSelectionAfter` and `EditorState.push` stay opaque
  constructors of `Transform`. Their code is not part of this model.
- `onEditorChange` reads the last block with `getCurrentContent` and
  `getLastBlock`. The model takes that block's text as its input.
- Persistence is left out. This covers `localStorage`, `JSON.stringify`
  and `JSON.parse`, `convertToRaw` and `convertFromRaw`, and `handleSave`
  (src/App.jsx:42-49, 115-117, 159-170). These are I/O and library code.
  Note that `onEditorChange` saves the content it read at line 76, which
  is from before any transform.
- React state, the `loading` flag, its timer, the JSX layout and the
  `console.log` calls are left out. They are UI plumbing.
- The red-colour decorator (src/App.jsx:24-38) is left out. It delegates
  to Draft.js `findStyleRanges` and renders a component.
- The key bindings `handleKeyCommand` and `mapKeyToEditorCommand`
  (src/App.jsx:51-71) are left out. They are thin wrappers over library
  key handling.
- The component's `handlePastedText` prop (src/App.jsx:199-201) calls the
  three-parameter handler of line 120 with only two arguments. So the
  handler's own `editorState` parameter is undefined on every paste, and
  lines 123, 127, 131 and 135 hand undefined to `RichUtils`. The model
  describes the handler as if it were called with a state. `Handled`
  assumes the `RichUtils` call returns. Only the choice of branch is
  modelled, and that choice does not depend on the missing argument.
- `PasteMatcher` and `PasteMatcherIntended` return the handled/not-handled
  answer and the command. The state update they perform is left out.
- JavaScript strings are UTF-16 code units, while Dafny's `char` is a
  Unicode scalar value. So a lone surrogate cannot be written in the
  model. No whitespace character is a surrogate, so `trim` is unaffected.
