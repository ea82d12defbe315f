/** `extractExcerpt` (src/build.js:152-171): the plain-text summary of a page.
    The markup-stripping regular expressions are the foreign `stripMarkup`;
    what follows them (newline collapsing, trimming, truncation) is modelled
    character by character. */
module Excerpt {
  import opened Common

  /** The default `length` argument: `extractExcerpt` is always called without one. */
  const DefaultLength: nat := 160

  const Ellipsis: string := "..."

  /** The characters `String.prototype.trim` removes: ECMAScript's white space
      (tab, vertical tab, form feed, the byte-order mark and the space separators
      U+0020, U+00A0, U+1680, U+2000 to U+200A, U+202F, U+205F and U+3000) and its
      line terminators (line feed, carriage return, U+2028 and U+2029). */
  predicate IsSpace(c: char)
  {
    ('\t' <= c <= '\r') || c == ' ' || c == '\U{00A0}' || c == '\U{1680}' ||
    ('\U{2000}' <= c <= '\U{200A}') || c == '\U{2028}' || c == '\U{2029}' ||
    c == '\U{202F}' || c == '\U{205F}' || c == '\U{3000}' || c == '\U{FEFF}'
  }

  /** Neither the first nor the last character is white space. */
  predicate NoEdgeSpace(s: string)
  {
    s == [] || (!IsSpace(s[0]) && !IsSpace(s[|s| - 1]))
  }

  /** The string without its leading white space: a suffix of `s`, everything
      before it white space. */
  function TrimStart(s: string): (r: string)
    ensures |r| <= |s| && r == s[|s| - |r|..]
    ensures forall i | 0 <= i < |s| - |r| :: IsSpace(s[i])
    ensures r == [] || !IsSpace(r[0])
  {
    if s != [] && IsSpace(s[0]) then TrimStart(s[1..]) else s
  }

  /** The string without its trailing white space: a prefix of `s`, everything
      after it white space. */
  function TrimEnd(s: string): (r: string)
    ensures |r| <= |s| && r == s[..|r|]
    ensures forall i | |r| <= i < |s| :: IsSpace(s[i])
    ensures r == [] || !IsSpace(r[|r| - 1])
  {
    if s != [] && IsSpace(s[|s| - 1]) then TrimEnd(s[..|s| - 1]) else s
  }

  /** `s.trim()`. */
  function Trim(s: string): (r: string)
    ensures NoEdgeSpace(r)
  {
    var t := TrimStart(s);
    var r := TrimEnd(t);
    assert r != [] ==> r[0] == t[0];
    r
  }

  lemma TrimSlice(s: string)
    ensures var k := |s| - |TrimStart(s)|; k + |Trim(s)| <= |s| && Trim(s) == s[k..k + |Trim(s)|]
  {
    var t := TrimStart(s);
    var k := |s| - |t|;
    var r := TrimEnd(t);
    assert Trim(s) == r;
    assert r == s[k..][..|r|];
    SliceOfSuffix(s, k, |r|);
  }

  lemma SliceOfSuffix(s: string, k: nat, n: nat)
    requires k + n <= |s|
    ensures s[k..][..n] == s[k..k + n]
  {
    assert forall i | 0 <= i < n :: s[k..][..n][i] == s[k + i] == s[k..k + n][i];
  }

  lemma TrimCutEnd(s: string)
    ensures var k := |s| - |TrimStart(s)|; forall i | k + |Trim(s)| <= i < |s| :: IsSpace(s[i])
  {
    var t := TrimStart(s);
    var k := |s| - |t|;
    var r := TrimEnd(t);
    assert Trim(s) == r;
    forall i | k + |r| <= i < |s|
      ensures IsSpace(s[i])
    {
      assert s[i] == t[i - k];
    }
  }

  /** `trim()` keeps a slice of `s` and cuts off only white space on either side. */
  lemma TrimSpec(s: string)
    ensures var k := |s| - |TrimStart(s)|;
      k + |Trim(s)| <= |s| && Trim(s) == s[k..k + |Trim(s)|] &&
      (forall i | 0 <= i < k :: IsSpace(s[i])) &&
      (forall i | k + |Trim(s)| <= i < |s| :: IsSpace(s[i]))
  {
    TrimSlice(s);
    TrimCutEnd(s);
  }

  lemma SliceKeepsOut(s: string, i: nat, j: nat, c: char)
    requires c !in s && i <= j <= |s|
    ensures c !in s[i..j]
  {
    assert forall x | x in s[i..j] :: x in s;
  }

  /** Trimming adds no character. */
  lemma TrimKeepsOut(s: string, c: char)
    requires c !in s
    ensures c !in Trim(s)
  {
    TrimSpec(s);
    var k := |s| - |TrimStart(s)|;
    SliceKeepsOut(s, k, k + |Trim(s)|, c);
  }

  /** A string without white space at its ends is its own trim. */
  lemma TrimTrimmed(s: string)
    requires NoEdgeSpace(s)
    ensures Trim(s) == s
  {
    assert TrimStart(s) == s;
    assert TrimEnd(s) == s;
  }

  /** The leading newlines of `s` removed. */
  function DropNewlines(s: string): (r: string)
    ensures |r| <= |s|
    ensures r == [] || r[0] != '\n'
  {
    if s != [] && s[0] == '\n' then DropNewlines(s[1..]) else s
  }

  /** `s.replace(/\n+/g, ' ')`: each maximal run of newlines becomes one space. */
  function CollapseNewlines(s: string): (r: string)
    ensures |r| <= |s|
    decreases |s|
  {
    if s == [] then []
    else if s[0] == '\n' then " " + CollapseNewlines(DropNewlines(s[1..]))
    else [s[0]] + CollapseNewlines(s[1..])
  }

  /** No newline survives the replacement. */
  lemma {:induction false} CollapseHasNoNewline(s: string)
    ensures '\n' !in CollapseNewlines(s)
    decreases |s|
  {
    if s != [] {
      if s[0] == '\n' {
        CollapseHasNoNewline(DropNewlines(s[1..]));
      } else {
        CollapseHasNoNewline(s[1..]);
      }
    }
  }

  /** Text without newlines is left as it is. */
  lemma {:induction false} CollapseWithoutNewlines(s: string)
    requires forall i | 0 <= i < |s| :: s[i] != '\n'
    ensures CollapseNewlines(s) == s
  {
    if s != [] {
      CollapseWithoutNewlines(s[1..]);
    }
  }

  /** The text after markup is stripped, newlines collapsed and the ends trimmed. */
  function PlainText(strip: string -> string, markdown: string): (r: string)
    ensures '\n' !in r && NoEdgeSpace(r)
  {
    var collapsed := CollapseNewlines(strip(markdown));
    CollapseHasNoNewline(strip(markdown));
    TrimKeepsOut(collapsed, '\n');
    Trim(collapsed)
  }

  lemma AppendEllipsis(head: string)
    requires '\n' !in head
    ensures EndsWith(head + Ellipsis, Ellipsis)
    ensures (head + Ellipsis)[..|head|] == head
    ensures '\n' !in head + Ellipsis
  {
    var r := head + Ellipsis;
    assert r[|r| - 3..] == Ellipsis;
  }

  /** `extractExcerpt(markdown, length)`: the plain text when it fits in `length`
      characters; otherwise its first `length` characters, trimmed, followed by
      "...". Either way the excerpt holds no newline. */
  function ExtractExcerpt(strip: string -> string, markdown: string, length: nat): (r: string)
    ensures '\n' !in r
    ensures |PlainText(strip, markdown)| <= length ==>
      r == PlainText(strip, markdown) && NoEdgeSpace(r)
    ensures |PlainText(strip, markdown)| > length ==>
      |r| <= length + 3 && EndsWith(r, Ellipsis) &&
      r[..|r| - 3] == Trim(PlainText(strip, markdown)[..length]) &&
      NoEdgeSpace(r[..|r| - 3])
  {
    var text := PlainText(strip, markdown);
    if |text| > length then
      var head := Trim(text[..length]);
      SliceKeepsOut(text, 0, length, '\n');
      TrimKeepsOut(text[..length], '\n');
      AppendEllipsis(head);
      head + Ellipsis
    else
      text
  }

  /** The characters other than spaces and newlines, in order. */
  function Visible(s: string): string
  {
    if s == [] then []
    else if s[0] == ' ' || s[0] == '\n' then Visible(s[1..])
    else [s[0]] + Visible(s[1..])
  }

  lemma {:induction false} VisibleAppend(a: string, b: string)
    ensures Visible(a + b) == Visible(a) + Visible(b)
  {
    if a != [] {
      assert (a + b)[0] == a[0];
      assert (a + b)[1..] == a[1..] + b;
      VisibleAppend(a[1..], b);
    } else {
      assert a + b == b;
    }
  }

  lemma {:induction false} VisibleDropNewlines(s: string)
    ensures Visible(DropNewlines(s)) == Visible(s)
  {
    if s != [] && s[0] == '\n' {
      VisibleDropNewlines(s[1..]);
    }
  }

  /** Collapsing newlines changes only white space: the other characters keep
      their order, and none is added or lost. */
  lemma {:induction false} CollapseKeepsVisible(s: string)
    ensures Visible(CollapseNewlines(s)) == Visible(s)
    decreases |s|
  {
    if s != [] {
      if s[0] == '\n' {
        var rest := DropNewlines(s[1..]);
        CollapseKeepsVisible(rest);
        VisibleAppend(" ", CollapseNewlines(rest));
        VisibleDropNewlines(s[1..]);
      } else {
        CollapseKeepsVisible(s[1..]);
        VisibleAppend([s[0]], CollapseNewlines(s[1..]));
      }
    }
  }

  /** Text without newlines passes through the collapsing unchanged. */
  lemma {:induction false} CollapsePlainPrefix(a: string, t: string)
    requires forall i | 0 <= i < |a| :: a[i] != '\n'
    ensures CollapseNewlines(a + t) == a + CollapseNewlines(t)
  {
    if a != [] {
      var s := a + t;
      assert s[0] == a[0];
      assert s[1..] == a[1..] + t;
      CollapsePlainPrefix(a[1..], t);
      assert [a[0]] + (a[1..] + CollapseNewlines(t)) == a + CollapseNewlines(t);
    } else {
      assert a + t == t;
    }
  }

  lemma CollapseBlankLine(t: string)
    requires t == [] || t[0] != '\n'
    ensures CollapseNewlines("\n\n" + t) == " " + CollapseNewlines(t)
  {
    var s := "\n\n" + t;
    assert s[0] == '\n';
    assert s[1..] == "\n" + t;
    assert s[1..][1..] == t;
    assert DropNewlines(s[1..]) == DropNewlines(t);
  }

  /** A run of `k` newlines. */
  function Newlines(k: nat): (r: string)
    ensures |r| == k && forall i | 0 <= i < k :: r[i] == '\n'
  {
    seq(k, _ => '\n')
  }

  lemma {:induction false} DropRun(k: nat, t: string)
    requires t == [] || t[0] != '\n'
    ensures DropNewlines(Newlines(k) + t) == t
  {
    var s := Newlines(k) + t;
    if k > 0 {
      assert s[0] == '\n';
      assert s[1..] == Newlines(k - 1) + t;
      DropRun(k - 1, t);
    } else {
      assert s == t;
    }
  }

  lemma CollapseRun(k: nat, t: string)
    requires k >= 1 && (t == [] || t[0] != '\n')
    ensures CollapseNewlines(Newlines(k) + t) == " " + CollapseNewlines(t)
  {
    var s := Newlines(k) + t;
    assert s[0] == '\n';
    assert s[1..] == Newlines(k - 1) + t;
    DropRun(k - 1, t);
  }

  /** `replace(/\n+/g, ' ')` on one maximal run: after newline-free text, a run of
      one or more newlines up to the next other character becomes exactly one
      space, and the replacement carries on after it. */
  lemma CollapseNewlineRun(a: string, k: nat, t: string)
    requires forall i | 0 <= i < |a| :: a[i] != '\n'
    requires k >= 1 && (t == [] || t[0] != '\n')
    ensures CollapseNewlines(a + (Newlines(k) + t)) == a + (" " + CollapseNewlines(t))
  {
    CollapsePlainPrefix(a, Newlines(k) + t);
    CollapseRun(k, t);
  }

  /** A heading and a paragraph separated by a blank line: the blank line becomes
      one space. */
  lemma CollapseTwoParagraphs(head: string, body: string)
    requires forall i | 0 <= i < |head| :: head[i] != '\n'
    requires forall i | 0 <= i < |body| :: body[i] != '\n'
    ensures CollapseNewlines(head + ("\n\n" + body)) == head + (" " + body)
  {
    CollapsePlainPrefix(head, "\n\n" + body);
    CollapseBlankLine(body);
    CollapseWithoutNewlines(body);
  }

  /** A heading and a paragraph separated by a blank line (the stripped form of
      "# Title\n\nSome **bold** text"): the blank line becomes one space and, when
      the result fits, it is the excerpt as it is. */
  lemma ExcerptOfTwoParagraphs(strip: string -> string, markdown: string, head: string, body: string)
    requires strip(markdown) == head + "\n\n" + body
    requires forall i | 0 <= i < |head| :: head[i] != '\n'
    requires forall i | 0 <= i < |body| :: body[i] != '\n'
    requires head != [] && !IsSpace(head[0]) && body != [] && !IsSpace(body[|body| - 1])
    requires |head| + 1 + |body| <= DefaultLength
    ensures ExtractExcerpt(strip, markdown, DefaultLength) == head + (" " + body)
  {
    var full := head + (" " + body);
    CollapseTwoParagraphs(head, body);
    assert head + "\n\n" + body == head + ("\n\n" + body);
    assert full[0] == head[0] && full[|full| - 1] == body[|body| - 1];
    TrimTrimmed(full);
    assert PlainText(strip, markdown) == full;
  }
}
