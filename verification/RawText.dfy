/** Which elements hold raw text, said letter by letter: what a stream of script or style keeps back,
    what their closing tag releases, and that every other tag passes. */
module RawText {
  import opened HtmlTokens
  import opened SafeCut
  import opened Text

  /** `n` is the word, written in small letters, in any letter case. */
  predicate Spells(n: string, word: string) {
    |n| == |word| && forall k :: 0 <= k < |n| ==>
      n[k] == word[k] || ('a' <= word[k] <= 'z' && n[k] as int + 32 == word[k] as int)
  }

  predicate Small(word: string) { forall k :: 0 <= k < |word| ==> !('A' <= word[k] <= 'Z') }

  lemma {:induction false} SpellsIsLower(n: string, word: string)
    requires Small(word)
    ensures Spells(n, word) <==> Lower(n) == word
  {
    if n != "" && word != "" && |n| == |word| {
      assert n == [n[0]] + n[1..] && word == [word[0]] + word[1..];
      SpellsIsLower(n[1..], word[1..]);
      assert Lower(n) == [LowerChar(n[0])] + Lower(n[1..]);
      if Spells(n[1..], word[1..]) && LowerChar(n[0]) == word[0] {
        forall k | 0 <= k < |n|
          ensures n[k] == word[k] || ('a' <= word[k] <= 'z' && n[k] as int + 32 == word[k] as int)
        {
          if k > 0 { assert n[k] == n[1..][k - 1] && word[k] == word[1..][k - 1]; }
        }
      }
      if Spells(n, word) {
        forall k | 0 <= k < |n| - 1
          ensures n[1..][k] == word[1..][k] || ('a' <= word[1..][k] <= 'z' && n[1..][k] as int + 32 == word[1..][k] as int)
        {
          assert n[1..][k] == n[k + 1] && word[1..][k] == word[k + 1];
        }
      }
    }
  }

  const RAW_NAMES := ["script", "style", "constructor", "__proto__"]

  predicate Ordinary(name: string) { forall w <- RAW_NAMES :: !Spells(name, w) }

  /** The tag's name, as written. */
  function Written(t: string, i: nat, tag: TagShape): string
    requires TagAt(t, i, tag)
  {
    t[i + 1..i + 1 + tag.name]
  }

  /** `</`, the word in any letter case. */
  predicate Closes(t: string, k: nat, word: string) {
    k + 2 + |word| <= |t| && t[k] == '<' && t[k + 1] == '/' && Spells(t[k + 2..k + 2 + |word|], word)
  }

  lemma ClosesIsCloseAt(t: string, k: nat, word: string)
    requires Small(word)
    ensures Closes(t, k, word) <==> CloseAt(t, k, word)
  {
    if k + 2 + |word| <= |t| {
      var s, mark := t[k..k + 2 + |word|], "</" + word;
      SpellsIsLower(s, mark);
      SpellsMark(s, word);
      assert s[2..] == t[k + 2..k + 2 + |word|];
    }
  }

  lemma SpellsMark(s: string, word: string)
    requires |s| == 2 + |word|
    ensures Spells(s, "</" + word) <==> s[0] == '<' && s[1] == '/' && Spells(s[2..], word)
  {
    var mark := "</" + word;
    assert forall k :: 0 <= k < |word| ==> mark[k + 2] == word[k] && s[2..][k] == s[k + 2];
    if s[0] == '<' && s[1] == '/' && Spells(s[2..], word) {
      forall k | 0 <= k < |s|
        ensures s[k] == mark[k] || ('a' <= mark[k] <= 'z' && s[k] as int + 32 == mark[k] as int)
      {
        if k >= 2 { assert mark[(k - 2) + 2] == word[k - 2]; }
      }
    }
  }

  lemma NamesAreSmall()
    ensures forall w <- RAW_NAMES :: Small(w)
  {
  }

  lemma RawIsNamed(t: string, i: nat, tag: TagShape)
    requires TagAt(t, i, tag)
    ensures OpensRaw(t, i, tag) <==> !HasSlash(t, i, tag) && exists w :: w in RAW_NAMES && Spells(Written(t, i, tag), w)
    ensures forall w <- RAW_NAMES :: Spells(Written(t, i, tag), w) ==> NameOf(t, i, tag) == w
  {
    NamesAreSmall();
    hide TagAt, HasSlash, Spells, RAW_NAMES;
    forall w | w in RAW_NAMES ensures Spells(Written(t, i, tag), w) <==> NameOf(t, i, tag) == w {
      SpellsIsLower(Written(t, i, tag), w);
    }
    RawIsListed(NameOf(t, i, tag));
  }

  lemma RawIsListed(name: string)
    ensures IsRaw(name) <==> name in RAW_NAMES
  {
  }

  lemma NamesAre(w: string)
    requires w in RAW_NAMES
    ensures Small(w)
  {
  }

  lemma CutFrom(t: string, i: nat)
    requires i < |t|
    ensures Cut(t, i) == if UnitEnd(t, i) == -1 then i else Cut(t, UnitEnd(t, i))
  {
  }

  /** How the element ends that the tag opens. */
  lemma RawTagEnds(t: string, i: nat, tag: TagShape, word: string)
    requires TagAt(t, i, tag) && !HasSlash(t, i, tag) && word in RAW_NAMES && Spells(Written(t, i, tag), word)
    ensures Small(word) && i + TagLen(tag) <= |t| && UnitEnd(t, i) == RawEnd(t, i + TagLen(tag), word)
  {
    hide *;
    NamesAre(word);
    RawIsNamed(t, i, tag);
    TagIsUnit(t, i, tag);
    TagFits(t, i, tag);
  }

  lemma TagFits(t: string, i: nat, tag: TagShape)
    requires TagAt(t, i, tag)
    ensures i < i + TagLen(tag) <= |t|
  {
  }

  lemma NoEnd(t: string, b: nat, word: string)
    requires Small(word)
    requires forall k, g :: b <= k && k + 2 + |word| <= g < |t| && Closes(t, k, word) ==> t[g] != '>'
    ensures RawEnd(t, b, word) == -1
  {
    hide Closes, Small;
    if RawEnd(t, b, word) != -1 {
      var body, junk := BuildRaw(t, b, word);
      ClosesIsCloseAt(t, b + body, word);
    }
  }

  lemma FirstEnd(t: string, b: nat, word: string, close: nat, end: nat)
    requires Small(word) && b <= close && close + 2 + |word| <= end < |t| && Closes(t, close, word) && t[end] == '>'
    requires forall k :: b <= k < close ==> !Closes(t, k, word)
    requires forall k :: close + 2 + |word| <= k < end ==> t[k] != '>'
    ensures RawEnd(t, b, word) == end + 1
  {
    hide Closes, Small, CloseAt;
    forall k | b <= k <= close ensures Closes(t, k, word) <==> CloseAt(t, k, word) { ClosesIsCloseAt(t, k, word); }
    RawIsEnd(t, b, word, close - b, end - (close + 2 + |word|));
  }

  /** MAIN: from an opening tag of a raw-text element on, whatever the letter case of its name, nothing
      may be rendered until its closing mark and a '>' behind it have arrived. */
  lemma RawTextIsHeld(t: string, i: nat, tag: TagShape, word: string)
    requires TagAt(t, i, tag) && !HasSlash(t, i, tag) && word in RAW_NAMES && Spells(Written(t, i, tag), word)
    requires forall k, g :: i + TagLen(tag) <= k && k + 2 + |word| <= g < |t| && Closes(t, k, word) ==> t[g] != '>'
    ensures Cut(t, i) == i
  {
    hide *;
    RawTagEnds(t, i, tag, word);
    TagFits(t, i, tag);
    NoEnd(t, i + TagLen(tag), word);
    CutFrom(t, i);
  }

  /** MAIN: with its first closing mark and the first '>' behind that, the whole element may be. */
  lemma RawTextIsPassed(t: string, i: nat, tag: TagShape, word: string, close: nat, end: nat)
    requires TagAt(t, i, tag) && !HasSlash(t, i, tag) && word in RAW_NAMES && Spells(Written(t, i, tag), word)
    requires i + TagLen(tag) <= close && close + 2 + |word| <= end < |t| && Closes(t, close, word) && t[end] == '>'
    requires forall k :: i + TagLen(tag) <= k < close ==> !Closes(t, k, word)
    requires forall k :: close + 2 + |word| <= k < end ==> t[k] != '>'
    ensures Cut(t, i) == Cut(t, end + 1) && Cut(t, i) > end
  {
    hide *;
    RawTagEnds(t, i, tag, word);
    TagFits(t, i, tag);
    FirstEnd(t, i + TagLen(tag), word, close, end);
    CutFrom(t, i);
  }

  /** MAIN: every other tag, closing tags and self-closing ones included, may be rendered at once. */
  lemma OtherTagsPass(t: string, i: nat, tag: TagShape)
    requires TagAt(t, i, tag)
    requires HasSlash(t, i, tag) || Ordinary(Written(t, i, tag))
    ensures Cut(t, i) == Cut(t, i + TagLen(tag)) && Cut(t, i) >= i + TagLen(tag)
  {
    RawIsNamed(t, i, tag);
    hide TagAt, HasSlash, Spells, Written, RAW_NAMES;
    assert !OpensRaw(t, i, tag);
    hide *;
    TagIsUnit(t, i, tag);
    TagFits(t, i, tag);
    CutFrom(t, i);
  }

  // ---------- comments, CDATA sections and quoted values ----------

  /** `open` to `close` is held back until the end mark has arrived, and passes with the first one. */
  lemma CommentIsHeld(t: string, i: nat)
    requires HasAt(t, "<!--", i) && forall k: nat :: i + 4 <= k ==> !HasAt(t, "-->", k)
    ensures Cut(t, i) == i
  {
    CharOf(t, "<!--", i, 0);
    NotFound(t, "-->", i + 4);
    hide HasAt, IndexOf;
  }

  lemma CommentPasses(t: string, i: nat, e: nat)
    requires HasAt(t, "<!--", i) && i + 4 <= e && HasAt(t, "-->", e) && forall k :: i + 4 <= k < e ==> !HasAt(t, "-->", k)
    ensures Cut(t, i) == Cut(t, e + 3)
  {
    CharOf(t, "<!--", i, 0);
    FirstIs(t, "-->", i + 4, e);
    hide HasAt, IndexOf;
  }

  lemma SectionIsHeld(t: string, i: nat)
    requires HasAt(t, "<![CDATA[", i) && forall k: nat :: i + 9 <= k ==> !HasAt(t, "]]>", k)
    ensures Cut(t, i) == i
  {
    CharOf(t, "<![CDATA[", i, 0);
    NotComment(t, i);
    NotFound(t, "]]>", i + 9);
    hide HasAt, IndexOf;
  }

  lemma SectionPasses(t: string, i: nat, e: nat)
    requires HasAt(t, "<![CDATA[", i) && i + 9 <= e && HasAt(t, "]]>", e) && forall k :: i + 9 <= k < e ==> !HasAt(t, "]]>", k)
    ensures Cut(t, i) == Cut(t, e + 3)
  {
    CharOf(t, "<![CDATA[", i, 0);
    NotComment(t, i);
    FirstIs(t, "]]>", i + 9, e);
    hide HasAt, IndexOf;
  }

  /** `<name a="value">` stands at `i`: a name of `n` small letters, one white space, and a value of
      `body` characters in either kind of quotes. */
  predicate QuotedTagAt(t: string, i: nat, n: nat, body: nat) {
    var q := i + n + 4;
    && n > 0 && q + body + 2 < |t| && t[i] == '<' && (forall k :: i < k <= i + n ==> 'a' <= t[k] <= 'z')
    && t[q - 3] in [' ', '\t', '\n', '\r'] && 'a' <= t[q - 2] <= 'z' && t[q - 1] == '=' && t[q] in ['"', '\'']
    && (forall k :: q < k <= q + body ==> t[k] != t[q]) && t[q + body + 1] == t[q] && t[q + body + 2] == '>'
  }

  function QuotedTag(n: nat, body: nat): TagShape { WithAttrs(n, More(NameChar, More(Quoted(0, body), Done))) }

  /** A '>' inside a quoted value does not end the tag. */
  lemma QuotedTagPasses(t: string, i: nat, n: nat, body: nat)
    requires QuotedTagAt(t, i, n, body) && Ordinary(t[i + 1..i + 1 + n])
    ensures Cut(t, i) == Cut(t, i + n + body + 7)
  {
    hide *;
    QuotedShape(t, i, n, body);
    OtherTagsPass(t, i, QuotedTag(n, body));
  }

  lemma QuotedShape(t: string, i: nat, n: nat, body: nat)
    requires QuotedTagAt(t, i, n, body)
    ensures i + n < |t|
    ensures var tag := QuotedTag(n, body);
            TagAt(t, i, tag) && Written(t, i, tag) == t[i + 1..i + 1 + n] && TagLen(tag) == n + body + 7
  {
    QuotedAttrs(t, i, n, body);
    NameStarts(t, i);
    hide AttrsAt, HasAt;
  }

  lemma NameStarts(t: string, i: nat)
    requires i + 1 < |t| && t[i + 1] != '!'
    ensures !HasAt(t, COMMENT_OPEN, i) && !HasAt(t, CDATA_OPEN, i)
  {
    if HasAt(t, COMMENT_OPEN, i) { CharOf(t, COMMENT_OPEN, i, 1); }
    if HasAt(t, CDATA_OPEN, i) { CharOf(t, CDATA_OPEN, i, 1); }
    hide HasAt;
  }

  lemma QuotedAttrs(t: string, i: nat, n: nat, body: nat)
    requires QuotedTagAt(t, i, n, body)
    ensures var attrs := More(NameChar, More(Quoted(0, body), Done));
            AttrsAt(t, i + n + 2, attrs) && AttrsLen(attrs) == body + 5
  {
    assert AttrAt(t, i + n + 3, Quoted(0, body)) && AttrsAt(t, i + n + body + 6, Done);
    hide AttrsAt, QuotedTagAt;
    MoreAt(t, i + n + 3, Quoted(0, body), Done);
    MoreAt(t, i + n + 2, NameChar, More(Quoted(0, body), Done));
  }
}
