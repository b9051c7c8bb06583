/** The standalone content magnifier: a hidden button whose `active` state
    is mirrored into localStorage, the magnifier element created once, the
    search for the readable element under the pointer, and the clean-up of
    the text the magnifier shows. */
module Magnifier {
  import opened Js

  const StorageKey := "aguia_magnifier_enabled"
  const ButtonId := "aguia-magnifier-standalone-button"
  const MagnifierId := "aguia-standalone-magnifier"

  // ---------------------------------------------------------------------
  // The stored state

  /** The text `toggleMagnifier` stores for a state. */
  function StoredText(active: bool): (t: string)
    ensures t == "true" <==> active
  {
    if active then "true" else "false"
  }

  /** `localStorage.getItem(STORAGE_KEY) === 'true'`. */
  predicate RestoredActive(storage: map<string, string>)
  {
    StorageKey in storage && storage[StorageKey] == "true"
  }

  /** A state written by a toggle is the state a new button starts in, and
      only the exact text 'true' restores an active magnifier. */
  lemma StoredStateRestores(storage: map<string, string>, active: bool, other: string)
    ensures RestoredActive(storage[StorageKey := StoredText(active)]) == active
    ensures RestoredActive(storage[StorageKey := other]) <==> other == "true"
  {
  }

  /** The page as the magnifier sees it: the element ids present, the text
      held in localStorage, whether the button carries the class `active`
      and whether the scope element carries `aguia-magnifier-active`. */
  class Page {
    var ids: set<string>
    var storage: map<string, string>
    var buttonActive: bool
    var scopeActive: bool

    constructor (ids: set<string>, storage: map<string, string>)
      ensures this.ids == ids && this.storage == storage
      ensures !buttonActive && !scopeActive
    {
      this.ids, this.storage := ids, storage;
      buttonActive, scopeActive := false, false;
    }

    /** `createMagnifier()`: nothing happens when the element already exists. */
    method CreateMagnifier() returns (created: bool)
      modifies this
      ensures created <==> MagnifierId !in old(ids)
      ensures ids == old(ids) + {MagnifierId}
      ensures storage == old(storage) && buttonActive == old(buttonActive) && scopeActive == old(scopeActive)
    {
      if MagnifierId in ids {
        return false;
      }
      ids := ids + {MagnifierId};
      created := true;
    }

    /** `createButton()`: nothing happens when the button already exists; a
        new button is active exactly when the stored text is 'true', and
        then the scope is marked active as well. */
    method CreateButton() returns (created: bool)
      modifies this
      ensures created <==> ButtonId !in old(ids)
      ensures ids == old(ids) + {ButtonId}
      ensures created ==> buttonActive == RestoredActive(storage)
      ensures created ==> scopeActive == (old(scopeActive) || RestoredActive(storage))
      ensures !created ==> buttonActive == old(buttonActive) && scopeActive == old(scopeActive)
      ensures storage == old(storage)
    {
      if ButtonId in ids {
        return false;
      }
      buttonActive := false;
      var isEnabled := StorageKey in storage && storage[StorageKey] == "true";
      if isEnabled {
        buttonActive := true;
        scopeActive := true;
      }
      ids := ids + {ButtonId};
      created := true;
    }

    /** `toggleMagnifier(button)`: flips the state, on the button and the
        scope, and stores it. */
    method ToggleMagnifier()
      modifies this
      ensures buttonActive == !old(buttonActive)
      ensures scopeActive == buttonActive
      ensures storage == old(storage)[StorageKey := StoredText(buttonActive)]
      ensures ids == old(ids)
    {
      var isActive := buttonActive;
      if isActive {
        buttonActive := false;
        scopeActive := false;
        storage := storage[StorageKey := "false"];
      } else {
        buttonActive := true;
        scopeActive := true;
        storage := storage[StorageKey := "true"];
      }
    }
  }

  // ---------------------------------------------------------------------
  // Finding the readable element

  /** A DOM node: an element with its tag name (upper case, as `tagName`
      reports it) and child nodes, or a text node. */
  datatype Node = Element(tag: string, children: seq<Node>) | Text(content: string)

  const ContentTags: seq<string> :=
    ["P", "H1", "H2", "H3", "H4", "H5", "H6", "LI", "SPAN", "A", "STRONG", "EM", "LABEL", "BUTTON", "TD", "TH"]
  const AvoidTags: seq<string> := ["SCRIPT", "STYLE", "NOSCRIPT", "IFRAME", "CODE", "PRE"]

  /** `textContent`: the text of every text node below, in document order. */
  function TextContent(n: Node): string
    decreases n
  {
    match n
    case Text(c) => c
    case Element(_, cs) => TextOfAll(cs)
  }

  function TextOfAll(cs: seq<Node>): string
    decreases cs
  {
    if cs == [] then [] else TextContent(cs[0]) + TextOfAll(cs[1..])
  }

  /** `n.textContent.trim().length > 1`. */
  predicate Readable(n: Node)
  {
    |Trim(TextContent(n))| > 1
  }

  /** The nodes strictly below `n`, in document order. */
  function Descendants(n: Node): seq<Node>
    decreases n
  {
    match n
    case Text(_) => []
    case Element(_, cs) => DescendantsOfAll(cs)
  }

  function DescendantsOfAll(cs: seq<Node>): seq<Node>
    decreases cs
  {
    if cs == [] then [] else [cs[0]] + Descendants(cs[0]) + DescendantsOfAll(cs[1..])
  }

  /** The elements of `ns` with tag `tag`, in order. */
  function Tagged(ns: seq<Node>, tag: string): (r: seq<Node>)
    ensures |r| <= |ns|
    ensures forall x | x in r :: x in ns && x.Element? && x.tag == tag
    ensures forall i | 0 <= i < |ns| && ns[i].Element? && ns[i].tag == tag :: ns[i] in r
    decreases |ns|
  {
    if ns == [] then []
    else
      var r := (if ns[0].Element? && ns[0].tag == tag then [ns[0]] else []) + Tagged(ns[1..], tag);
      assert forall i | 1 <= i < |ns| :: ns[i] == ns[1..][i - 1];
      r
  }

  /** The selection keeps document order: selecting from two runs of nodes
      selects from the first, then from the second. */
  lemma {:induction false} TaggedAppend(a: seq<Node>, b: seq<Node>, tag: string)
    ensures Tagged(a + b, tag) == Tagged(a, tag) + Tagged(b, tag)
    decreases |a|
  {
    if a != [] {
      assert (a + b)[1..] == a[1..] + b;
      TaggedAppend(a[1..], b, tag);
    } else {
      assert a + b == b;
    }
  }

  /** `element.querySelectorAll(tag)`. */
  function QuerySelectorAll(e: Node, tag: string): seq<Node>
  {
    Tagged(Descendants(e), tag)
  }

  /** The first readable node of `ns`. */
  function FirstReadable(ns: seq<Node>): (r: Option<Node>)
    ensures r.Some? ==> r.value in ns && Readable(r.value)
    ensures r.Some? ==> exists k | 0 <= k < |ns| :: ns[k] == r.value && forall j | 0 <= j < k :: !Readable(ns[j])
    ensures r.None? ==> forall x | x in ns :: !Readable(x)
    decreases |ns|
  {
    if ns == [] then None
    else if Readable(ns[0]) then Some(ns[0])
    else
      var r := FirstReadable(ns[1..]);
      if r.Some? then
        var k :| 0 <= k < |ns| - 1 && ns[1..][k] == r.value && forall j | 0 <= j < k :: !Readable(ns[1..][j]);
        NoneReadableBefore(ns, k);
        r
      else r
  }

  /** No readable node before position `k` of the tail, nor at the head,
      means none before position `k + 1`. */
  lemma NoneReadableBefore(ns: seq<Node>, k: nat)
    requires 0 <= k < |ns| - 1 && !Readable(ns[0])
    requires forall j | 0 <= j < k :: !Readable(ns[1..][j])
    ensures ns[k + 1] == ns[1..][k] && forall j | 0 <= j < k + 1 :: !Readable(ns[j])
  {
    forall j | 0 <= j < k + 1 ensures !Readable(ns[j]) {
      if j > 0 { assert ns[j] == ns[1..][j - 1]; }
    }
  }

  /** The first readable descendant of the first content tag, in the order
      of the list, that has one. */
  function SearchTags(e: Node, tags: seq<string>): Option<Node>
    decreases |tags|
  {
    if tags == [] then None
    else
      match FirstReadable(QuerySelectorAll(e, tags[0]))
      case Some(c) => Some(c)
      case None => SearchTags(e, tags[1..])
  }

  /** A text child whose trimmed text is longer than one character. */
  predicate DirectText(n: Node)
  {
    n.Text? && |Trim(n.content)| > 1
  }

  /** What `findTextElement(element)` returns. */
  function FindText(e: Node): Option<Node>
    requires e.Element?
  {
    if e.tag in AvoidTags then None
    else if e.tag in ContentTags && Readable(e) then Some(e)
    else if exists i | 0 <= i < |e.children| :: DirectText(e.children[i]) then Some(e)
    else
      match SearchTags(e, ContentTags)
      case Some(c) => Some(c)
      case None => Some(e)
  }

  /** `findTextElement(element)`. */
  method FindTextElement(e: Node) returns (r: Option<Node>)
    requires e.Element?
    ensures r == FindText(e)
  {
    if e.tag in AvoidTags {
      return None;
    }
    if e.tag in ContentTags {
      var text := Trim(TextContent(e));
      if text != [] && |text| > 1 {
        return Some(e);
      }
    }
    if |e.children| > 0 {
      var hasDirectText := HasDirectText(e.children);
      if hasDirectText {
        return Some(e);
      }
    }
    r := SearchChildren(e, ContentTags);
    if r.None? {
      r := Some(e);
    }
  }

  /** The loop over `element.childNodes` that looks for a text node. */
  method HasDirectText(children: seq<Node>) returns (found: bool)
    ensures found <==> exists i | 0 <= i < |children| :: DirectText(children[i])
  {
    found := false;
    var i := 0;
    while i < |children|
      invariant 0 <= i <= |children|
      invariant !exists j | 0 <= j < i :: DirectText(children[j])
    {
      var node := children[i];
      if node.Text? && |Trim(node.content)| > 1 {
        return true;
      }
      i := i + 1;
    }
  }

  /** The loop over the elements one tag selects. */
  method FirstReadableOf(ns: seq<Node>) returns (r: Option<Node>)
    ensures r == FirstReadable(ns)
  {
    var k := 0;
    while k < |ns|
      invariant 0 <= k <= |ns|
      invariant FirstReadable(ns) == FirstReadable(ns[k..])
    {
      var child := ns[k];
      if |Trim(TextContent(child))| > 1 {
        return Some(child);
      }
      assert ns[k..][1..] == ns[k + 1..];
      k := k + 1;
    }
    return None;
  }

  /** The loop over the content tags `tags`, in their order. */
  method SearchChildren(e: Node, tags: seq<string>) returns (r: Option<Node>)
    ensures r == SearchTags(e, tags)
  {
    var t := 0;
    while t < |tags|
      invariant 0 <= t <= |tags|
      invariant SearchTags(e, tags) == SearchTags(e, tags[t..])
    {
      r := FirstReadableOf(QuerySelectorAll(e, tags[t]));
      if r.Some? {
        return;
      }
      assert tags[t..][1..] == tags[t + 1..];
      t := t + 1;
    }
    return None;
  }

  lemma {:induction false} SearchTagsFinds(e: Node, tags: seq<string>)
    ensures SearchTags(e, tags).Some? ==>
            var c := SearchTags(e, tags).value;
            c in Descendants(e) && c.Element? && c.tag in tags && Readable(c)
    decreases |tags|
  {
    if tags != [] && FirstReadable(QuerySelectorAll(e, tags[0])).None? {
      SearchTagsFinds(e, tags[1..]);
    }
  }

  /** Null exactly for the avoided tags; otherwise the element itself, or a
      readable descendant carrying a content tag. A content element with
      readable text is its own answer. */
  lemma FindTextResult(e: Node)
    requires e.Element?
    ensures FindText(e).None? <==> e.tag in AvoidTags
    ensures FindText(e).Some? ==>
            var x := FindText(e).value;
            x == e || (x in Descendants(e) && x.Element? && x.tag in ContentTags && Readable(x))
    ensures e.tag !in AvoidTags && e.tag in ContentTags && Readable(e) ==> FindText(e) == Some(e)
  {
    SearchTagsFinds(e, ContentTags);
  }

  // ---------------------------------------------------------------------
  // Cleaning up the text: the steps

  /** No character of `s` is one of `bad`. */
  predicate Free(s: string, bad: string)
  {
    forall c | c in s :: c !in bad
  }

  /** No two whitespace characters are next to each other. */
  predicate NoDoubleSpace(s: string)
  {
    forall i | 1 <= i < |s| :: !IsSpace(s[i - 1]) || !IsSpace(s[i])
  }

  /** The index of the last line feed in `t`, or -1. */
  function LastNewline(t: string): (k: int)
    ensures -1 <= k < |t|
    ensures k >= 0 ==> t[k] == '\n'
    decreases |t|
  {
    if t == [] then -1
    else if t[|t| - 1] == '\n' then |t| - 1
    else LastNewline(t[..|t| - 1])
  }

  /** `s.replace(/\n\s*\n/g, '\n')`: a line feed, a run of whitespace and the
      last line feed of that run become one line feed. */
  function CollapseBlankLines(s: string): (r: string)
    ensures |r| <= |s|
    ensures forall c | c in r :: c in s
    ensures '\n' !in s ==> r == s
    decreases |s|
  {
    if s == [] then []
    else
      var k := if s[0] == '\n' then LastNewline(s[1..][..LeadingSpaces(s[1..])]) else -1;
      if k >= 0 then
        var r := "\n" + CollapseBlankLines(s[k + 2..]);
        assert forall c | c in r :: c in s by {
          assert forall c | c in s[k + 2..] :: c in s;
        }
        r
      else
        var r := [s[0]] + CollapseBlankLines(s[1..]);
        assert forall c | c in r :: c in s by {
          assert forall c | c in s[1..] :: c in s;
        }
        r
  }

  /** `s.replace(/\{|\}|<style>|<\/style>/g, '')`. */
  function RemoveBraces(s: string): (r: string)
    ensures |r| <= |s|
    ensures forall c | c in r :: c in s
    ensures Free(r, "{}")
    decreases |s|
  {
    if s == [] then []
    else if s[0] == '{' || s[0] == '}' then RemoveBraces(s[1..])
    else if "<style>" <= s then RemoveBraces(s[7..])
    else if "</style>" <= s then RemoveBraces(s[8..])
    else
      var r := [s[0]] + RemoveBraces(s[1..]);
      assert forall c | c in r :: c in s by {
        assert forall c | c in s[1..] :: c in s;
      }
      r
  }

  /** `[a-z]`, under the flag `i` also `[A-Z]`. */
  predicate Letter(c: char, ignoreCase: bool)
  {
    'a' <= c <= 'z' || (ignoreCase && 'A' <= c <= 'Z')
  }

  /** `s` starts with the lower-case word `w`. */
  predicate WordAt(s: string, w: string, ignoreCase: bool)
  {
    |w| <= |s| && forall i | 0 <= i < |w| :: (if ignoreCase then AsciiLower(s[i]) else s[i]) == w[i]
  }

  /** The length of the run of letters at the start of `s`. */
  function LetterRun(s: string, ignoreCase: bool): (k: nat)
    ensures k <= |s|
    decreases |s|
  {
    if s != [] && Letter(s[0], ignoreCase) then 1 + LetterRun(s[1..], ignoreCase) else 0
  }

  /** Where `word(-[a-z]+)?:` puts its colon when it matches at the start of
      `s`, or -1: the letters after a hyphen are taken greedily, and no
      shorter run can be followed by the colon. */
  function ColonAfter(s: string, w: string, ignoreCase: bool): (c: int)
    ensures c < |s|
    ensures c >= 0 ==> c >= |w| && s[c] == ':'
  {
    if !WordAt(s, w, ignoreCase) || |w| == |s| then -1
    else if s[|w|] == ':' then |w|
    else if s[|w|] == '-' then
      var k := |w| + 1 + LetterRun(s[|w| + 1..], ignoreCase);
      if k > |w| + 1 && k < |s| && s[k] == ':' then k else -1
    else -1
  }

  /** The length of the match of `word(-[a-z]+)?:\s*[^;]+;` at the start of
      `s`, or 0. After the colon, `\s*[^;]+` is one or more characters up
      to the first `;`, so the declaration ends at that `;`. */
  function DeclarationLength(s: string, w: string, ignoreCase: bool): (n: nat)
    ensures n <= |s|
    ensures n > 0 ==> n >= |w| + 3 && ':' in s[..n]
  {
    var c := ColonAfter(s, w, ignoreCase);
    if c < 0 then 0
    else
      var q := c + 1 + FirstIndexOf(s[c + 1..], ';');
      if q < |s| && q >= c + 2 then
        assert s[..q + 1][c] == ':';
        q + 1
      else 0
  }

  /** `s.replace(/word(-[a-z]+)?:\s*[^;]+;/g, '')`, with or without the flag
      `i`: the declarations of the property `word` are deleted. */
  function StripDeclarations(s: string, w: string, ignoreCase: bool): (r: string)
    ensures |r| <= |s|
    ensures forall c | c in r :: c in s
    decreases |s|
  {
    if s == [] then []
    else
      var n := DeclarationLength(s, w, ignoreCase);
      if n > 0 then
        var r := StripDeclarations(s[n..], w, ignoreCase);
        assert forall c | c in r :: c in s by {
          assert forall c | c in s[n..] :: c in s;
        }
        r
      else
        var r := [s[0]] + StripDeclarations(s[1..], w, ignoreCase);
        assert forall c | c in r :: c in s by {
          assert forall c | c in s[1..] :: c in s;
        }
        r
  }

  /** Every declaration holds a colon, so a text without one is unchanged. */
  lemma {:induction false} StripWithoutColon(s: string, w: string, ignoreCase: bool)
    requires ':' !in s
    ensures StripDeclarations(s, w, ignoreCase) == s
    decreases |s|
  {
    if s != [] {
      var n := DeclarationLength(s, w, ignoreCase);
      assert forall c | c in s[..n] :: c in s;
      assert ':' !in s[1..] by {
        assert forall c | c in s[1..] :: c in s;
      }
      StripWithoutColon(s[1..], w, ignoreCase);
    }
  }

  /** `s.replace(/\s{n,}/g, ' ')`: every run of at least `n` whitespace
      characters becomes one space. */
  function CollapseRuns(s: string, n: nat): (r: string)
    requires n >= 1
    ensures |r| <= |s|
    ensures forall c | c in r :: c in s || c == ' '
    ensures s != [] && !IsSpace(s[0]) ==> r != [] && r[0] == s[0]
    decreases |s|
  {
    if s == [] then []
    else
      var k := LeadingSpaces(s);
      if k >= n then
        var r := " " + CollapseRuns(s[k..], n);
        assert forall c | c in r :: c in s || c == ' ' by {
          assert forall c | c in s[k..] :: c in s;
        }
        r
      else
        var r := [s[0]] + CollapseRuns(s[1..], n);
        assert forall c | c in r :: c in s || c == ' ' by {
          assert forall c | c in s[1..] :: c in s;
        }
        r
  }

  /** The cut to 500 characters followed by '...'. */
  function Truncate(s: string): (r: string)
    ensures |r| <= 503
    ensures forall c | c in r :: c in s || c == '.'
    ensures |s| <= 500 ==> r == s
  {
    if |s| > 500 then
      assert forall c | c in s[..500] :: c in s;
      s[..500] + "..."
    else s
  }

  /** `s.replace(/[\[\]#.]/g, ' ')`. */
  function Blank(s: string): (r: string)
    ensures |r| == |s|
    ensures forall i | 0 <= i < |s| :: r[i] == if s[i] in "[]#." then ' ' else s[i]
  {
    seq(|s|, i requires 0 <= i < |s| => if s[i] in "[]#." then ' ' else s[i])
  }

  // ---------------------------------------------------------------------
  // Properties of the steps

  /** A run of two or more whitespace characters is collapsed, so none
      remains. */
  lemma {:induction false} CollapsedHasNoDoubleSpace(s: string)
    ensures NoDoubleSpace(CollapseRuns(s, 2))
    decreases |s|
  {
    if s != [] {
      var k := LeadingSpaces(s);
      if k >= 2 {
        CollapsedHasNoDoubleSpace(s[k..]);
      } else {
        CollapsedHasNoDoubleSpace(s[1..]);
        assert k == 1 ==> s[1..] == [] || !IsSpace(s[1..][0]);
      }
    }
  }

  /** Text without a pair of whitespace characters passes through. */
  lemma {:induction false} CollapseKeepsSingleSpaces(s: string)
    requires NoDoubleSpace(s)
    ensures CollapseRuns(s, 2) == s
    decreases |s|
  {
    if s != [] {
      assert LeadingSpaces(s) < 2;
      assert NoDoubleSpace(s[1..]) by {
        forall i | 1 <= i < |s[1..]| ensures !IsSpace(s[1..][i - 1]) || !IsSpace(s[1..][i]) {
          assert s[1..][i - 1] == s[i] && s[1..][i] == s[i + 1];
        }
      }
      CollapseKeepsSingleSpaces(s[1..]);
    }
  }

  /** Collapsing twice is collapsing once. */
  lemma CollapseIdempotent(s: string)
    ensures CollapseRuns(CollapseRuns(s, 2), 2) == CollapseRuns(s, 2)
  {
    CollapsedHasNoDoubleSpace(s);
    CollapseKeepsSingleSpaces(CollapseRuns(s, 2));
  }

  /** The cut keeps the absence of whitespace pairs: the kept prefix has
      none, and the dots are not whitespace. */
  lemma TruncateNoDoubleSpace(s: string)
    requires NoDoubleSpace(s)
    ensures NoDoubleSpace(Truncate(s))
  {
    if |s| > 500 {
      var r := Truncate(s);
      forall i | 1 <= i < |r| ensures !IsSpace(r[i - 1]) || !IsSpace(r[i]) {
        if i < 500 {
          assert r[i - 1] == s[i - 1] && r[i] == s[i];
        } else {
          assert r[i] == '.';
        }
      }
    }
  }

  /** A character-removing step keeps a text free of `bad`. */
  lemma FreeWithin(s: string, r: string, bad: string)
    requires Free(s, bad)
    requires forall c | c in r :: c in s
    ensures Free(r, bad)
  {
  }

  // ---------------------------------------------------------------------
  // The whole clean-up

  /** The steps before the first cut: blank lines, braces, declarations,
      runs of three or more whitespace characters. */
  function CleanupFirstPass(text: string): (r: string)
    ensures Free(r, "{}")
  {
    var c1 := Trim(CollapseBlankLines(text));
    var c2 := RemoveBraces(c1);
    var c3 := StripDeclarations(StripDeclarations(c2, "border", true), "outline", true);
    FreeWithin(c2, StripDeclarations(c2, "border", true), "{}");
    FreeWithin(StripDeclarations(c2, "border", true), c3, "{}");
    var c4 := CollapseRuns(c3, 3);
    c4
  }

  /** The steps after the first cut: the bracket and dot blanking, the
      case-sensitive declarations and the runs of whitespace. */
  function CleanupSecondPass(c5: string): (r: string)
    requires Free(c5, "{}")
    ensures Free(r, "{}[]#.") && NoDoubleSpace(r)
  {
    var c6 := Blank(c5);
    assert Free(c6, "{}[]#.") by {
      forall c | c in c6 ensures c !in "{}[]#." {
        var i :| 0 <= i < |c6| && c6[i] == c;
        if c5[i] !in "[]#." {
          assert c5[i] in c5;
        }
      }
    }
    var c7a := StripDeclarations(c6, "border", false);
    FreeWithin(c6, c7a, "{}[]#.");
    var c7 := StripDeclarations(c7a, "outline", false);
    FreeWithin(c7a, c7, "{}[]#.");
    CollapsedHasNoDoubleSpace(c7);
    CollapseRuns(c7, 2)
  }

  /** `cleanupText(text)`. The patterns on lines 262, 263, 268 and 269 need
      a `{`, and none is left after the brace step, so they change nothing
      and are not repeated here. */
  function CleanupText(text: string): string
  {
    var c5 := Truncate(CleanupFirstPass(text));
    Truncate(CleanupSecondPass(c5))
  }

  /** The shown text has no brace, square bracket or hash, no two
      whitespace characters side by side, and at most 503 characters; a dot
      can only be part of the final '...' of the cut. */
  lemma CleanupTextClean(text: string)
    ensures var r := CleanupText(text);
      |r| <= 503 && Free(r, "{}[]#") && NoDoubleSpace(r) &&
      forall i | 0 <= i < |r| && r[i] == '.' :: i >= 500
  {
    var c4 := CleanupFirstPass(text);
    var c5 := Truncate(c4);
    var c8 := CleanupSecondPass(c5);
    TruncateNoDoubleSpace(c8);
    var r := Truncate(c8);
    assert Free(r, "{}[]#") by {
      forall c | c in r ensures c !in "{}[]#" {
        assert c in c8 || c == '.';
      }
    }
    assert forall i | 0 <= i < |r| && i < 500 :: r[i] == c8[i] && c8[i] in c8;
  }
}
