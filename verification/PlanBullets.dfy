/** What a bullet line of a plan says: of all ways to read it the one with the longest host and then the
    shortest rest. */
module PlanBullets {
  import opened Characters
  import opened Options
  import opened PlanText
  import opened PythonText

  predicate White(s: string, i: nat, j: nat) { i <= j <= |s| && forall k :: i <= k < j ==> s[k] in WHITE }

  predicate HostLetter(c: char) { 'A' <= c <= 'Z' || 'a' <= c <= 'z' || '0' <= c <= '9' || c in "._:-" }

  /** A sign between host and frameworks. */
  predicate Sign(c: char) { c in "=:\U{2192}-" }

  /** White space, and a backtick or none in front of it. */
  predicate WhiteBehindTick(s: string, i: nat, j: nat) {
    White(s, i, j) || (i < j && i < |s| && s[i] == '`' && White(s, i + 1, j))
  }

  /** White space, and a backtick or none behind it. */
  predicate WhiteBeforeTick(s: string, i: nat, j: nat) {
    White(s, i, j) || (i < j <= |s| && s[j - 1] == '`' && White(s, i, j - 1))
  }

  /** Signs from `sign` to `end`, and the frameworks from `rest` on, all behind a host that ends at `i`. */
  predicate TailAt(s: string, i: nat, sign: nat, end: nat, rest: nat) {
    && WhiteBehindTick(s, i, sign) && sign < end <= |s| && (forall k :: sign <= k < end ==> Sign(s[k]))
    && White(s, end, rest) && rest < |s|
  }

  /** One way to read a bullet line. */
  datatype Reading = Reading(mark: nat, host: nat, hostEnd: nat, sign: nat, signEnd: nat, rest: nat)

  predicate Reads(s: string, p: Reading) {
    && p.mark < |s| && White(s, 0, p.mark) && s[p.mark] in "-*\U{2022}" && WhiteBeforeTick(s, p.mark + 1, p.host)
    && p.host < p.hostEnd <= |s| && (forall k :: p.host <= k < p.hostEnd ==> HostLetter(s[k]))
    && TailAt(s, p.hostEnd, p.sign, p.signEnd, p.rest)
  }

  // ---------- behind the host ----------

  lemma WhiteIs(s: string, i: nat, j: nat)
    ensures White(s, i, j) <==> i <= j <= |s| && forall k :: i <= k < j ==> IsSpace(s[k])
  {
    hide WHITE, IsSpace;
    if i <= j <= |s| { forall k | i <= k < j ensures IsSpace(s[k]) <==> s[k] in WHITE { SpaceIsWhite(s[k]); } }
  }

  lemma {:induction false} SignsEnd(s: string, i: nat)
    requires i <= |s|
    ensures var e := SignEnd(s, i);
            (forall k :: i <= k < e ==> Sign(s[k])) && (e < |s| ==> !Sign(s[e]))
    decreases |s| - i
  {
    if i < |s| && Sign(s[i]) { SignsEnd(s, i + 1); }
  }

  /** White space, an optional backtick included, is skipped to its one possible end. */
  lemma SpaceEnds(s: string, i: nat, j: nat)
    requires i <= |s| && j < |s| && WhiteBehindTick(s, i, j) && s[j] != '`' && s[j] !in WHITE
    ensures SkipSpace(s, if s[i] == '`' then i + 1 else i) == j
  {
    TickIsNoSpace();
    hide WHITE, IsSpace, SkipSpace;
    SpaceIsWhite(s[j]);
    WhiteIs(s, i, j);
    WhiteIs(s, i + 1, j);
    if s[i] == '`' { SkipIs(s, i + 1, j); } else { SkipIs(s, i, j); }
  }

  lemma TickIsNoSpace()
    ensures '`' !in WHITE && forall c :: Sign(c) || HostLetter(c) ==> c !in WHITE && c != '`'
  {
    forall c | Sign(c) || HostLetter(c) ensures c !in WHITE { SpaceIsWhite(c); hide WHITE; }
    SpaceIsWhite('`');
    hide WHITE;
  }

  /** The signs of every reading begin where those of the code do, and end there or before. */
  lemma TailBegins(s: string, i: nat, sign: nat, end: nat, rest: nat)
    requires i <= |s| && TailAt(s, i, sign, end, rest)
    ensures i < |s| && sign == SkipSpace(s, if s[i] == '`' then i + 1 else i) && end <= SignEnd(s, sign)
  {
    TickIsNoSpace();
    SignsEnd(s, sign);
    hide WHITE, Sign, SkipSpace, SignEnd;
    assert Sign(s[sign]);
    SpaceEnds(s, i, sign);
  }

  /** Behind a host that ends at `i` the frameworks begin as late as they can. */
  lemma RestIsLatest(s: string, i: nat)
    requires i <= |s|
    ensures match RestAt(s, i)
            case None => forall a: nat, e: nat, r: nat :: !TailAt(s, i, a, e, r)
            case Some(r) => Latest(s, i, r)
  {
    var sign, end, rest := RestParts(s, i);
    hide *;
    RestCases(s, i, sign, end, rest);
  }

  ghost predicate Latest(s: string, i: nat, r: nat) {
    (exists a: nat, e: nat :: TailAt(s, i, a, e, r)) && forall a: nat, e: nat, q: nat :: TailAt(s, i, a, e, q) ==> q <= r
  }

  lemma RestParts(s: string, i: nat) returns (sign: nat, end: nat, rest: nat)
    requires i <= |s|
    ensures sign <= end <= rest <= |s| && WhiteBehindTick(s, i, sign) && White(s, end, rest)
    ensures (forall k :: sign <= k < end ==> Sign(s[k])) && (rest < |s| ==> s[rest] !in WHITE)
    ensures forall a: nat, e: nat, r: nat :: TailAt(s, i, a, e, r) ==> a == sign && e <= end
    ensures RestAt(s, i) == LatestRest(|s|, sign, end, rest)
  {
    hide WHITE, Sign, SkipSpace, SignEnd, IsSpace;
    var tick := if i < |s| && s[i] == '`' then i + 1 else i;
    sign := SkipSpace(s, tick);
    end := SignEnd(s, sign);
    rest := SkipSpace(s, end);
    SignsEnd(s, sign);
    WhiteIs(s, tick, sign);
    WhiteIs(s, end, rest);
    if rest < |s| { SpaceIsWhite(s[rest]); }
    forall a: nat, e: nat, r: nat | TailAt(s, i, a, e, r) ensures a == sign && e <= end {
      hide WhiteBehindTick;
      TailBegins(s, i, a, e, r);
    }
    hide WhiteBehindTick, TailAt, White;
  }

  lemma RestCases(s: string, i: nat, sign: nat, end: nat, rest: nat)
    requires i <= |s| && sign <= end <= rest <= |s| && WhiteBehindTick(s, i, sign) && White(s, end, rest)
    requires (forall k :: sign <= k < end ==> Sign(s[k])) && (rest < |s| ==> s[rest] !in WHITE)
    requires forall a: nat, e: nat, r: nat :: TailAt(s, i, a, e, r) ==> a == sign && e <= end
    ensures var r := LatestRest(|s|, sign, end, rest);
            match r
            case None => forall a: nat, e: nat, q: nat :: !TailAt(s, i, a, e, q)
            case Some(r) => Latest(s, i, r)
  {
    hide WHITE, Sign, WhiteBehindTick;
    forall a: nat, e: nat, q: nat | TailAt(s, i, a, e, q) ensures end > sign && q <= rest && q < |s| {}
    if end == sign {
    } else if rest < |s| {
      assert TailAt(s, i, sign, end, rest);
    } else if end < rest {
      assert TailAt(s, i, sign, end, rest - 1);
    } else if end - sign >= 2 {
      assert TailAt(s, i, sign, end - 1, end - 1);
    }
  }

  function LatestRest(n: nat, sign: nat, end: nat, rest: nat): Option<nat> {
    if end == sign then None
    else if rest < n then Some(rest)
    else if end < rest then Some(rest - 1)
    else if end - sign >= 2 then Some(end - 1)
    else None
  }

  // ---------- the whole line ----------

  lemma {:induction false} HostIsLongest(s: string, from: nat, till: nat)
    requires from <= till <= |s|
    ensures match LongestHost(s, from, till)
            case None => forall h :: from < h <= till ==> RestAt(s, h) == None
            case Some((host, rest)) =>
              exists h: nat, r: nat :: from < h <= till && RestAt(s, h) == Some(r) && host == s[from..h] && rest == s[r..]
                && forall g :: h < g <= till ==> RestAt(s, g) == None
    decreases till
  {
    hide RestAt;
    if from < till && RestAt(s, till) == None { HostIsLongest(s, from, till - 1); }
  }

  lemma {:induction false} HostsEnd(s: string, i: nat)
    requires i <= |s|
    ensures var e := HostEnd(s, i);
            (forall k :: i <= k < e ==> HostLetter(s[k])) && (e < |s| ==> !HostLetter(s[e]))
    decreases |s| - i
  {
    if i < |s| && HostLetter(s[i]) { HostsEnd(s, i + 1); }
  }

  /** Mark and beginning of the host are the same in every reading. */
  lemma ReadingBegins(s: string, p: Reading)
    requires Reads(s, p)
    ensures var i := SkipSpace(s, SkipSpace(s, 0) + 1);
            && p.mark == SkipSpace(s, 0) && i < |s| && p.host == (if s[i] == '`' then i + 1 else i)
            && p.hostEnd <= HostEnd(s, p.host)
  {
    hide *;
    HostIsBefore(s, p);
    MarkBegins(s, p.mark);
    LetterIsNoSpace(s[p.host]);
    HostBegins(s, p.mark + 1, p.host);
  }

  lemma HostIsBefore(s: string, p: Reading)
    requires Reads(s, p)
    ensures p.host < |s| && p.hostEnd <= HostEnd(s, p.host) && HostLetter(s[p.host])
    ensures p.mark < |s| && White(s, 0, p.mark) && s[p.mark] in "-*\U{2022}" && WhiteBeforeTick(s, p.mark + 1, p.host)
  {
    HostsEnd(s, p.host);
    hide TailAt, White, WhiteBeforeTick, HostLetter, HostEnd;
    assert HostLetter(s[p.host]);
  }

  lemma MarkBegins(s: string, mark: nat)
    requires mark < |s| && White(s, 0, mark) && s[mark] in "-*\U{2022}"
    ensures mark == SkipSpace(s, 0)
  {
    hide White, IsSpace, SkipSpace;
    MarkIsNoSpace(s[mark]);
    WhiteIs(s, 0, mark);
    SkipIs(s, 0, mark);
  }

  lemma LetterIsNoSpace(c: char)
    requires HostLetter(c)
    ensures !IsSpace(c) && c != '`' && !IsSpace('`')
  {
  }

  lemma HostBegins(s: string, i: nat, j: nat)
    requires i <= |s| && j < |s| && WhiteBeforeTick(s, i, j) && !IsSpace(s[j]) && s[j] != '`' && !IsSpace('`')
    ensures var k := SkipSpace(s, i); k < |s| && j == if s[k] == '`' then k + 1 else k
  {
    hide WHITE, SkipSpace, IsSpace;
    WhiteIs(s, i, j);
    if White(s, i, j) {
      SkipIs(s, i, j);
    } else {
      WhiteIs(s, i, j - 1);
      SkipIs(s, i, j - 1);
    }
  }

  lemma MarkIsNoSpace(c: char)
    requires c in "-*\U{2022}"
    ensures !IsSpace(c)
  {
  }

  /** The reading with the longest host and, with that, the shortest rest. */
  ghost predicate Best(s: string, p: Reading) {
    Reads(s, p) && forall q :: Reads(s, q) ==>
      q.mark == p.mark && q.host == p.host && (q.hostEnd < p.hostEnd || (q.hostEnd == p.hostEnd && q.rest <= p.rest))
  }

  predicate BeginsSo(s: string, p: Reading) {
    var mark := SkipSpace(s, 0);
    && mark < |s| && s[mark] in "-*\U{2022}"
    && (var i := SkipSpace(s, mark + 1);
        && p.mark == mark && i < |s| && p.host == (if s[i] == '`' then i + 1 else i) && p.hostEnd <= HostEnd(s, p.host))
  }

  lemma ReadingsBeginSo(s: string)
    ensures forall p :: Reads(s, p) ==> BeginsSo(s, p)
  {
    forall p | Reads(s, p) ensures BeginsSo(s, p) {
      ReadingBegins(s, p);
      hide WHITE, TailAt, SkipSpace, HostEnd, WhiteBeforeTick, White;
    }
  }

  /** The readings of a line whose host begins at `from`. */
  lemma NoReading(s: string, from: nat)
    requires forall p :: Reads(s, p) ==> p.host == from && p.hostEnd <= HostEnd(s, from)
    requires from <= |s| && forall h :: from < h <= HostEnd(s, from) ==> RestAt(s, h) == None
    ensures forall p :: !Reads(s, p)
  {
    forall p ensures !Reads(s, p) {
      hide HostEnd, RestAt;
      if Reads(s, p) { HasRest(s, p); }
    }
  }

  lemma HasRest(s: string, p: Reading)
    requires Reads(s, p)
    ensures p.hostEnd <= |s| && p.host < p.hostEnd
    ensures RestAt(s, p.hostEnd).Some? && p.rest <= RestAt(s, p.hostEnd).value
  {
    hide TailAt, RestAt, White, WhiteBeforeTick, HostLetter;
    RestIsLatest(s, p.hostEnd);
    assert TailAt(s, p.hostEnd, p.sign, p.signEnd, p.rest);
  }

  lemma LongestReads(s: string, mark: nat, from: nat, h: nat, r: nat) returns (p: Reading)
    requires from <= |s| && forall q :: Reads(s, q) ==> q.mark == mark && q.host == from && q.hostEnd <= HostEnd(s, from)
    requires from < h <= HostEnd(s, from) && RestAt(s, h) == Some(r)
    requires forall g :: h < g <= HostEnd(s, from) ==> RestAt(s, g) == None
    requires mark < |s| && White(s, 0, mark) && s[mark] in "-*\U{2022}" && WhiteBeforeTick(s, mark + 1, from)
    ensures Best(s, p) && p.host == from && p.hostEnd == h && p.rest == r
  {
    p := ReadingOf(s, mark, from, h, r);
    hide RestAt, HostEnd, White, WhiteBeforeTick, Reads;
    forall q | Reads(s, q) ensures q.hostEnd < h || (q.hostEnd == h && q.rest <= r) { HasRest(s, q); }
  }

  lemma ReadingOf(s: string, mark: nat, from: nat, h: nat, r: nat) returns (p: Reading)
    requires from < h <= |s| && h <= HostEnd(s, from) && RestAt(s, h) == Some(r)
    requires mark < |s| && White(s, 0, mark) && s[mark] in "-*\U{2022}" && WhiteBeforeTick(s, mark + 1, from)
    ensures Reads(s, p) && p.mark == mark && p.host == from && p.hostEnd == h && p.rest == r
  {
    hide TailAt, RestAt, HostEnd, White, WhiteBeforeTick, HostLetter;
    RestIsLatest(s, h);
    HostsEnd(s, from);
    var a: nat, e: nat :| TailAt(s, h, a, e, r);
    p := Reading(mark, from, h, a, e, r);
  }

  lemma Begins(s: string) returns (mark: nat, from: nat)
    ensures if mark < |s| && s[mark] in "-*\U{2022}" then
              && from <= |s| && White(s, 0, mark) && WhiteBeforeTick(s, mark + 1, from)
              && Bullet(s) == LongestHost(s, from, HostEnd(s, from))
              && (forall p :: Reads(s, p) ==> p.mark == mark && p.host == from && p.hostEnd <= HostEnd(s, from))
            else Bullet(s) == None && forall p :: !Reads(s, p)
  {
    ReadingsBeginSo(s);
    hide WHITE, SkipSpace, HostEnd, IsSpace, Reads, LongestHost;
    mark := SkipSpace(s, 0);
    from := 0;
    WhiteIs(s, 0, mark);
    if mark < |s| && s[mark] in "-*\U{2022}" {
      var i := SkipSpace(s, mark + 1);
      WhiteIs(s, mark + 1, i);
      from := if i < |s| && s[i] == '`' then i + 1 else i;
    }
  }

  /** MAIN: a line is a bullet exactly if it can be read as one, and then it is read with the longest host
      and, behind that, the shortest rest. */
  lemma BulletIsBest(s: string)
    ensures match Bullet(s)
            case None => forall p :: !Reads(s, p)
            case Some((host, rest)) => exists p :: Best(s, p) && host == s[p.host..p.hostEnd] && rest == s[p.rest..]
  {
    var mark, from := Begins(s);
    hide *;
    if mark < |s| && s[mark] in "-*\U{2022}" {
      HostIsLongest(s, from, HostEnd(s, from));
      match Bullet(s)
      case None => NoReading(s, from);
      case Some((host, rest)) =>
        var h: nat, r: nat :| from < h <= HostEnd(s, from) && RestAt(s, h) == Some(r) && host == s[from..h] && rest == s[r..]
                && forall g :: h < g <= HostEnd(s, from) ==> RestAt(s, g) == None;
        var p := LongestReads(s, mark, from, h, r);
    }
  }
}
