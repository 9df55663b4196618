/** Text of audit plans: lower case, framework lists, table cells and bullet lines. */
module PlanText {
  import opened Options
  import opened PythonText
  import Text

  // ---------- lower case ----------

  /** Lower case of Latin and Russian letters. */
  function LowerChar(c: char): char {
    if 'A' <= c <= 'Z' then ((c as int) + 32) as char
    else if '\U{410}' <= c <= '\U{42F}' then ((c as int) + 32) as char
    else if c == '\U{401}' then '\U{451}'
    else c
  }

  function Lower(s: string): (r: string)
    ensures |r| == |s|
  {
    seq(|s|, i requires 0 <= i < |s| => LowerChar(s[i]))
  }

  // ---------- framework ids ----------

  const DISCOVERY := "host_facts"

  /** Discovery-only: the id is that prefix, or continues it behind an underscore. */
  predicate IsDiscovery(id: string) {
    var low := Lower(Strip(id));
    low == DISCOVERY || DISCOVERY + "_" <= low
  }

  predicate Separates(c: char) { c in ",;/|" || IsSpace(c) }

  function RunLength(s: string): (n: nat)
    ensures n <= |s| && (forall k :: 0 <= k < n ==> !Separates(s[k])) && (n < |s| ==> Separates(s[n]))
  {
    if s == "" || Separates(s[0]) then 0 else 1 + RunLength(s[1..])
  }

  /** The runs of characters between separators. */
  function Tokens(s: string): seq<string>
    decreases |s|
  {
    if s == "" then []
    else if Separates(s[0]) then Tokens(s[1..])
    else [s[..RunLength(s)]] + Tokens(s[RunLength(s)..])
  }

  /** `strip` of one character. */
  function Trim(s: string, c: char): string
    decreases |s|
  {
    if s != "" && s[0] == c then Trim(s[1..], c)
    else if s != "" && s[|s| - 1] == c then Trim(s[..|s| - 1], c)
    else s
  }

  predicate IsFiller(id: string) { Lower(id) in {"and", "\U{438}", "plus", "+"} }

  predicate Has(ids: seq<string>, id: string) { exists k :: 0 <= k < |ids| && Lower(ids[k]) == Lower(id) }

  predicate Distinct(ids: seq<string>) { forall i, j :: 0 <= i < j < |ids| ==> Lower(ids[i]) != Lower(ids[j]) }

  function AddId(ids: seq<string>, token: string): seq<string> {
    var id := Trim(token, '`');
    if id == "" || IsFiller(id) || Has(ids, id) then ids else ids + [id]
  }

  function AddIds(ids: seq<string>, tokens: seq<string>): seq<string>
    decreases |tokens|
  {
    if tokens == [] then ids else AddIds(AddId(ids, tokens[0]), tokens[1..])
  }

  /** `_split_framework_ids`. */
  function SplitIds(text: string): seq<string> {
    var raw := Strip(text);
    if raw in {"\U{2014}", "-", "\U{2013}"} then [] else AddIds([], Tokens(raw))
  }

  method SplitFrameworkIds(text: string) returns (out: seq<string>)
    ensures out == SplitIds(text)
  {
    var raw := Strip(text);
    if raw in {"\U{2014}", "-", "\U{2013}"} { return []; }
    var parts := Tokens(raw);
    out := [];
    assert parts[0..] == parts;
    for n := 0 to |parts|
      invariant AddIds(out, parts[n..]) == AddIds([], parts)
    {
      assert parts[n..][1..] == parts[n + 1..];
      var id := Trim(parts[n], '`');
      if id == "" || IsFiller(id) || Has(out, id) { continue; }
      out := out + [id];
    }
    assert parts[|parts|..] == [];
  }

  // ---------- table cells ----------

  function BarAt(s: string): (n: nat)
    ensures n <= |s| && (forall k :: 0 <= k < n ==> s[k] != '|') && (n < |s| ==> s[n] == '|')
  {
    if s == "" || s[0] == '|' then 0 else 1 + BarAt(s[1..])
  }

  /** The stripped cells between bars. */
  function Cells(s: string): (cs: seq<string>)
    ensures cs != []
    decreases |s|
  {
    var n := BarAt(s);
    if n == |s| then [Strip(s)] else [Strip(s[..n])] + Cells(s[n + 1..])
  }

  /** A table row, of at least one character between its outer bars. */
  predicate IsTableRow(s: string) { |s| >= 3 && s[0] == '|' && s[|s| - 1] == '|' }

  /** The line below a table's header. */
  predicate IsRule(s: string) {
    IsTableRow(s) && forall k :: 1 <= k < |s| - 1 ==> IsSpace(s[k]) || s[k] in "|:-"
  }

  predicate HeaderChar(c: char) {
    'a' <= c <= 'z' || '0' <= c <= '9' || '\U{430}' <= c <= '\U{44F}' || c == '\U{451}'
  }

  function KeepHeader(s: string): string {
    if s == "" then "" else (if HeaderChar(s[0]) then [s[0]] else "") + KeepHeader(s[1..])
  }

  /** `_norm_plan_header`. */
  function Norm(cell: string): string { KeepHeader(Lower(cell)) }

  const HOST_HEADERS := {"host", "hosts", "hostip", "ip", "ips", "target", "targets", "hostname", "address", "server",
    "\U{445}\U{43E}\U{441}\U{442}", "\U{430}\U{434}\U{440}\U{435}\U{441}", "\U{441}\U{435}\U{440}\U{432}\U{435}\U{440}"}

  const FRAMEWORK_HEADERS := {"framework", "frameworks", "check", "checks", "checklist", "audit", "audits", "scope",
    "\U{444}\U{440}\U{435}\U{439}\U{43C}\U{432}\U{43E}\U{440}\U{43A}",
    "\U{444}\U{440}\U{435}\U{439}\U{43C}\U{432}\U{43E}\U{440}\U{43A}\U{438}",
    "\U{43F}\U{440}\U{43E}\U{432}\U{435}\U{440}\U{43A}\U{438}", "\U{43F}\U{440}\U{43E}\U{432}\U{435}\U{440}\U{43A}\U{430}"}

  predicate NamesHost(h: string) { h in HOST_HEADERS || Text.IndexOf(h, "host", 0) != -1 }

  predicate NamesFrameworks(h: string) {
    h in FRAMEWORK_HEADERS || Text.IndexOf(h, "framework", 0) != -1 || Text.IndexOf(h, "check", 0) != -1
    || Text.IndexOf(h, "\U{444}\U{440}\U{435}\U{439}\U{43C}", 0) != -1
  }

  function HostColumn(cells: seq<string>): Option<nat> {
    if cells == [] then None
    else if NamesHost(Norm(cells[0])) then Some(0)
    else match HostColumn(cells[1..]) case None => None case Some(n) => Some(n + 1)
  }

  function FrameworkColumn(cells: seq<string>): Option<nat> {
    if cells == [] then None
    else if NamesFrameworks(Norm(cells[0])) then Some(0)
    else match FrameworkColumn(cells[1..]) case None => None case Some(n) => Some(n + 1)
  }

  // ---------- bullet lines ----------

  predicate HostChar(c: char) {
    'A' <= c <= 'Z' || 'a' <= c <= 'z' || '0' <= c <= '9' || c in "._:-"
  }

  function HostEnd(s: string, i: nat): (j: nat)
    requires i <= |s|
    ensures i <= j <= |s|
    decreases |s| - i
  {
    if i < |s| && HostChar(s[i]) then HostEnd(s, i + 1) else i
  }

  function SignEnd(s: string, i: nat): (j: nat)
    requires i <= |s|
    ensures i <= j <= |s|
    decreases |s| - i
  {
    if i < |s| && s[i] in "=:\U{2192}-" then SignEnd(s, i + 1) else i
  }

  /** Where the frameworks of a bullet line begin when its host ends at `i`: behind an optional
      backtick, space and a sign. When nothing follows, the space, or else the sign, gives back its
      last character. */
  function RestAt(s: string, i: nat): (r: Option<nat>)
    requires i <= |s|
    ensures r.Some? ==> r.value < |s|
  {
    var tick := if i < |s| && s[i] == '`' then i + 1 else i;
    var sign := SkipSpace(s, tick);
    var end := SignEnd(s, sign);
    var rest := SkipSpace(s, end);
    if end == sign then None
    else if rest < |s| then Some(rest)
    else if end < rest then Some(rest - 1)
    else if end - sign >= 2 then Some(end - 1)
    else None
  }

  /** The longest host from `from` that ends at or before `to` and is followed by a sign. */
  function LongestHost(s: string, from: nat, till: nat): Option<(string, string)>
    requires from <= till <= |s|
    decreases till
  {
    if from == till then None
    else match RestAt(s, till)
      case Some(r) => Some((s[from..till], s[r..]))
      case None => LongestHost(s, from, till - 1)
  }

  /** Host and frameworks of a bullet line. */
  function Bullet(s: string): Option<(string, string)> {
    var mark := SkipSpace(s, 0);
    if mark == |s| || s[mark] !in "-*\U{2022}" then None
    else
      var i := SkipSpace(s, mark + 1);
      var from := if i < |s| && s[i] == '`' then i + 1 else i;
      LongestHost(s, from, HostEnd(s, from))
  }
}
