/** Names of evidence files: `NNN_<tool>.txt` and its `.json` sidecar, how the number is read back,
    and how the names sort. */
module EvidenceNames {
  import opened Decimal
  import opened Options
  import opened Ordering
  import Text

  function Name(n: nat, tool: string, ext: string): string { Pad3(n) + ("_" + (tool + ext)) }

  predicate Ends(s: string, suffix: string) { |s| >= |suffix| && s[|s| - |suffix|..] == suffix }

  /** The number of a file name: exactly three digits, an underscore, something, and a known suffix. */
  function SeqOf(name: string): Option<nat> {
    if |name| > 4 && IsDigit(name[0]) && IsDigit(name[1]) && IsDigit(name[2]) && name[3] == '_'
       && ((|name| > 8 && Ends(Text.Lower(name), ".txt")) || (|name| > 9 && Ends(Text.Lower(name), ".json")))
    then Some(100 * Value(name[0]) + 10 * Value(name[1]) + Value(name[2]))
    else None
  }

  lemma LowerIsSame(s: string)
    requires forall k :: 0 <= k < |s| ==> !('A' <= s[k] <= 'Z')
    ensures Text.Lower(s) == s
  {
  }

  lemma {:induction false} LowerJoins(a: string, b: string)
    ensures Text.Lower(a + b) == Text.Lower(a) + Text.Lower(b)
  {
    if a == "" {
      assert a + b == b;
    } else {
      assert (a + b)[1..] == a[1..] + b;
      LowerJoins(a[1..], b);
    }
  }

  lemma LowerEnds(s: string, suffix: string)
    requires Text.Lower(suffix) == suffix
    ensures Ends(Text.Lower(s + suffix), suffix)
  {
    LowerJoins(s, suffix);
  }

  /** MAIN: a written number is read back from the file name exactly when it has three digits. */
  lemma SeqOfName(n: nat, tool: string, ext: string)
    requires tool != "" && ext in {".txt", ".json"}
    ensures SeqOf(Name(n, tool, ext)) == if n <= 999 then Some(n) else None
  {
    var name := Name(n, tool, ext);
    PadDigits(n);
    LowerIsSame(ext);
    assert name == (Pad3(n) + ("_" + tool)) + ext;
    LowerEnds(Pad3(n) + ("_" + tool), ext);
    assert forall k :: 0 <= k < |Pad3(n)| ==> name[k] == Pad3(n)[k];
    assert name[|Pad3(n)|] == '_';
    hide Text.Lower, Name, Ends, Pad3;
  }

  const DIGIT_CHARS := "0123456789"

  /** Up to 999 a name is three digits, an underscore, the tool and the suffix. */
  lemma NameIs(a: nat, b: nat, c: nat, tool: string, ext: string)
    requires a < 10 && b < 10 && c < 10
    ensures Name(100 * a + 10 * b + c, tool, ext) == [DIGIT_CHARS[a], DIGIT_CHARS[b], DIGIT_CHARS[c]] + ("_" + (tool + ext))
  {
    var n := 100 * a + 10 * b + c;
    assert n / 10 == 10 * a + b && n % 10 == c && (n / 10) / 10 == a && (n / 10) % 10 == b;
    DigitIs(a);
    DigitIs(b);
    DigitIs(c);
    hide DIGIT_CHARS;
    var x, y, z := DIGIT_CHARS[a], DIGIT_CHARS[b], DIGIT_CHARS[c];
    if a > 0 {
      assert Digits(n / 10) == [x] + [y] && Digits(n) == [x] + [y] + [z];
    } else if b > 0 {
      assert Digits(n) == [y] + [z];
    }
    assert Pad3(n) == [x, y, z];
  }

  lemma DigitIs(n: nat)
    requires n < 10
    ensures '0' + n as char == DIGIT_CHARS[n] && Digits(n) == [DIGIT_CHARS[n]]
  {
    assert DIGIT_CHARS[0] == '0' && DIGIT_CHARS[1] == '1' && DIGIT_CHARS[2] == '2' && DIGIT_CHARS[3] == '3' && DIGIT_CHARS[4] == '4';
    assert DIGIT_CHARS[5] == '5' && DIGIT_CHARS[6] == '6' && DIGIT_CHARS[7] == '7' && DIGIT_CHARS[8] == '8' && DIGIT_CHARS[9] == '9';
  }

  /** A file that `list_tool_result_files` takes. */
  predicate IsListed(name: string) {
    |name| > 4 && IsDigit(name[0]) && IsDigit(name[1]) && IsDigit(name[2]) && name[3] == '_' && Ends(name, ".txt")
  }

  /** MAIN: of the files of a ticket the text file is listed, up to number 999; past that none is. */
  lemma ListedName(n: nat, tool: string, ext: string)
    requires ext in {".txt", ".json"}
    ensures IsListed(Name(n, tool, ext)) <==> ext == ".txt" && n <= 999
  {
    var name := Name(n, tool, ext);
    PadDigits(n);
    assert name == (Pad3(n) + ("_" + tool)) + ext;
    assert forall k :: 0 <= k < |Pad3(n)| ==> name[k] == Pad3(n)[k];
    assert name[|Pad3(n)|] == '_';
    assert name[|name| - 4..][3] == ext[|ext| - 1];
    hide Pad3, Name;
  }

  lemma {:induction false} LessAt(a: string, b: string, i: nat)
    requires i < |a| && i < |b| && (forall k :: 0 <= k < i ==> a[k] == b[k]) && a[i] < b[i]
    ensures Less(a, b)
  {
    if i > 0 { LessAt(a[1..], b[1..], i - 1); }
  }

  /** MAIN: up to 999, the order of the names is the order of the numbers. */
  lemma NamesInOrder(m: nat, n: nat, t: string, u: string)
    requires m < n <= 999
    ensures Less(Name(m, t, ".txt"), Name(n, u, ".txt"))
  {
    var a, b := Name(m, t, ".txt"), Name(n, u, ".txt");
    PadDigits(m);
    PadDigits(n);
    assert forall k :: 0 <= k < 3 ==> a[k] == Pad3(m)[k] && b[k] == Pad3(n)[k];
    hide Pad3, Name, Less;
    if a[0] != b[0] {
      LessAt(a, b, 0);
    } else if a[1] != b[1] {
      LessAt(a, b, 1);
    } else {
      LessAt(a, b, 2);
    }
  }
}
