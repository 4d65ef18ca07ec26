/**
 ID-reference lists such as `aria-describedby`.

 The components build them as `ids.length ? ids.join(' ') : undefined`.
 A browser reads such an attribute back as a set of space-separated
 tokens: it splits the value on ASCII whitespace and drops empty pieces
 (HTML Living Standard, "split a string on ASCII whitespace").
 `Tokens` is that reading, and `ReadBack` is the main fact of this module:
 for non-empty, whitespace-free ids, what the browser reads is exactly the
 list that was joined.
 */
module AriaIds {
  import opened Js

  /** ASCII whitespace: TAB, LF, FF, CR and SPACE. */
  predicate IsWhitespace(c: char) {
    c == '\t' || c == '\n' || c == '\U{C}' || c == '\r' || c == ' '
  }

  predicate WhitespaceFree(s: string) {
    forall i :: 0 <= i < |s| ==> !IsWhitespace(s[i])
  }

  /** An id that survives a round trip through a token list. */
  predicate IsToken(s: string) {
    s != "" && WhitespaceFree(s)
  }

  predicate AllTokens(ids: seq<string>) {
    forall i :: 0 <= i < |ids| ==> IsToken(ids[i])
  }

  /** `Array.prototype.join(' ')`. */
  function Join(ids: seq<string>): string
    decreases |ids|
  {
    if |ids| == 0 then ""
    else if |ids| == 1 then ids[0]
    else ids[0] + " " + Join(ids[1..])
  }

  /** `ids.length ? ids.join(' ') : undefined` */
  function IdList(ids: seq<string>): (r: Option<string>)
    ensures r.None? <==> |ids| == 0
  {
    if |ids| == 0 then None else Some(Join(ids))
  }

  /** Length of the leading run of non-whitespace characters. */
  function WordLength(s: string): (n: nat)
    ensures n <= |s|
    ensures WhitespaceFree(s[..n])
    ensures n < |s| ==> IsWhitespace(s[n])
  {
    if |s| == 0 || IsWhitespace(s[0]) then 0 else 1 + WordLength(s[1..])
  }

  /** How a browser reads an ID-reference attribute. */
  function Tokens(s: string): (r: seq<string>)
    ensures AllTokens(r)
    decreases |s|
  {
    if |s| == 0 then []
    else if IsWhitespace(s[0]) then Tokens(s[1..])
    else
      var n := WordLength(s);
      [s[..n]] + Tokens(s[n..])
  }

  /** The ids an optional attribute refers to; an absent one refers to none. */
  function Referenced(attr: Option<string>): seq<string> {
    match attr
    case None => []
    case Some(s) => Tokens(s)
  }

  lemma {:induction false} WordLengthOfToken(w: string, tail: string)
    requires IsToken(w)
    requires tail == [] || IsWhitespace(tail[0])
    ensures WordLength(w + tail) == |w|
    decreases |w|
  {
    if |w| > 1 {
      assert (w + tail)[1..] == w[1..] + tail;
      WordLengthOfToken(w[1..], tail);
    } else {
      assert (w + tail)[1..] == tail;
    }
  }

  /** A single token reads back as itself. */
  lemma {:induction false} TokensOfToken(w: string)
    requires IsToken(w)
    ensures Tokens(w) == [w]
  {
    WordLengthOfToken(w, []);
    assert w + [] == w;
    assert w[|w|..] == [];
  }

  /** A token followed by a space is read as that token, then the rest. */
  lemma {:induction false} TokensOfTokenThenSpace(w: string, rest: string)
    requires IsToken(w)
    ensures Tokens(w + " " + rest) == [w] + Tokens(rest)
  {
    var s := w + " " + rest;
    assert s == w + (" " + rest);
    WordLengthOfToken(w, " " + rest);
    assert s[..|w|] == w;
    assert s[|w|..] == " " + rest;
    assert (" " + rest)[1..] == rest;
  }

  /** Joining non-empty, whitespace-free ids and reading the result back
      yields the same ids in the same order. */
  lemma {:induction false} TokensOfJoin(ids: seq<string>)
    requires AllTokens(ids)
    ensures Tokens(Join(ids)) == ids
    decreases |ids|
  {
    if |ids| == 0 {
    } else if |ids| == 1 {
      TokensOfToken(ids[0]);
    } else {
      TokensOfTokenThenSpace(ids[0], Join(ids[1..]));
      TokensOfJoin(ids[1..]);
      assert ids == [ids[0]] + ids[1..];
    }
  }

  /** The attribute built by `IdList` refers to exactly the listed ids,
      and is absent exactly when there are none. */
  lemma ReadBack(ids: seq<string>)
    requires AllTokens(ids)
    ensures Referenced(IdList(ids)) == ids
    ensures IdList(ids).None? <==> ids == []
  {
    if |ids| > 0 {
      TokensOfJoin(ids);
    }
  }

  /** Two whitespace-free strings, not both empty, concatenate to a token. */
  lemma ConcatToken(a: string, b: string)
    requires WhitespaceFree(a) && WhitespaceFree(b)
    requires a != "" || b != ""
    ensures IsToken(a + b)
  {
  }

  // ---------------------------------------------------------------------
  // Optional text blocks and the attribute that describes an element by them

  /** A rendered `<div id=… role=…>text</div>`. */
  datatype TextBlock = TextBlock(domId: string, role: Option<string>, text: string)

  /** `text && <div id={domId} role={role}>{text}</div>`: rendered exactly
      when the text is truthy. */
  function ShowIf(domId: string, role: Option<string>, text: Option<string>): (b: Option<TextBlock>)
    ensures b.Some? <==> Truthy(text)
    ensures b.Some? ==> b.value == TextBlock(domId, role, text.value)
  {
    if Truthy(text) then Some(TextBlock(domId, role, text.value)) else None
  }

  /** The DOM ids of the blocks that are rendered, in order. */
  function RenderedIds(blocks: seq<Option<TextBlock>>): seq<string>
    decreases |blocks|
  {
    if |blocks| == 0 then []
    else if blocks[0].Some? then [blocks[0].value.domId] + RenderedIds(blocks[1..])
    else RenderedIds(blocks[1..])
  }

  /** The ids collected by `if (a) ids.push(aId); if (b) ids.push(bId);`. */
  function CollectIds(firstId: string, firstText: Option<string>,
                      secondId: string, secondText: Option<string>): seq<string>
  {
    (if Truthy(firstText) then [firstId] else []) + (if Truthy(secondText) then [secondId] else [])
  }

  /** The `aria-describedby` the components build from two optional texts:
      the first id if its text is truthy, then the second id if its text
      is truthy, joined with a space, or `undefined` when neither is. */
  function DescribedBy(firstId: string, firstText: Option<string>,
                       secondId: string, secondText: Option<string>): (r: Option<string>)
    ensures r.None? <==> !Truthy(firstText) && !Truthy(secondText)
  {
    IdList(CollectIds(firstId, firstText, secondId, secondText))
  }

  /** `DescribedBy` refers to exactly the blocks rendered for the same two
      texts, in the same order: the first id iff the first text is truthy,
      the second id iff the second text is truthy. */
  lemma DescribedByMatchesRendered(firstId: string, firstText: Option<string>, firstRole: Option<string>,
                                   secondId: string, secondText: Option<string>, secondRole: Option<string>)
    requires IsToken(firstId) && IsToken(secondId)
    ensures Referenced(DescribedBy(firstId, firstText, secondId, secondText))
         == RenderedIds([ShowIf(firstId, firstRole, firstText), ShowIf(secondId, secondRole, secondText)])
    ensures Referenced(DescribedBy(firstId, firstText, secondId, secondText))
         == CollectIds(firstId, firstText, secondId, secondText)
  {
    var ids := CollectIds(firstId, firstText, secondId, secondText);
    ReadBack(ids);
    var blocks := [ShowIf(firstId, firstRole, firstText), ShowIf(secondId, secondRole, secondText)];
    assert blocks[1..] == [blocks[1]];
    assert [blocks[1]][1..] == [];
    assert RenderedIds([blocks[1]]) == (if Truthy(secondText) then [secondId] else []);
    assert RenderedIds(blocks) == (if Truthy(firstText) then [firstId] else []) + RenderedIds([blocks[1]]);
  }
}
