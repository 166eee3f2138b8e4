/** The string operations of the runtime that token parsing and the list-valued settings share:
    `includes`, `split`, its inverse `join`, and `trim`. */
module Text {

  predicate Occurs(s: string, sep: string, j: int) {
    0 <= j <= |s| - |sep| && s[j..j + |sep|] == sep
  }

  // JavaScript `s.includes(sep)`.
  predicate Includes(s: string, sep: string) {
    exists j :: 0 <= j <= |s| && Occurs(s, sep, j)
  }

  // JavaScript `s.split(sep)`: cut at the leftmost separator, then again in what follows it, empty
  // parts kept; the empty separator cuts between any two characters.
  function Split(s: string, sep: string): (parts: seq<string>)
    ensures sep != "" ==> |parts| >= 1
    decreases |s|
  {
    if sep == "" then Characters(s)
    else if s == "" then [""]
    else if Occurs(s, sep, 0) then [""] + Split(s[|sep|..], sep)
    else Longer(s[0], Split(s[1..], sep))
  }

  // One more character at the front of the first part.
  function Longer(c: char, parts: seq<string>): (longer: seq<string>)
    requires |parts| >= 1
    ensures |longer| == |parts|
  {
    [[c] + parts[0]] + parts[1..]
  }

  function Characters(s: string): seq<string> {
    seq(|s|, i requires 0 <= i < |s| => [s[i]])
  }

  // JavaScript `parts.join(sep)`.
  function Join(parts: seq<string>, sep: string): string {
    if |parts| == 0 then ""
    else if |parts| == 1 then parts[0]
    else parts[0] + sep + Join(parts[1..], sep)
  }

  // The characters `trim` removes: white space and line terminators.
  predicate IsBlank(c: char) {
    || '\t' <= c <= '\r'
    || c == ' '
    || c == '\U{00A0}'
    || c == '\U{1680}'
    || '\U{2000}' <= c <= '\U{200A}'
    || c in "\U{2028}\U{2029}\U{202F}\U{205F}\U{3000}\U{FEFF}"
  }

  function TrimStart(s: string): string {
    if s != "" && IsBlank(s[0]) then TrimStart(s[1..]) else s
  }

  function TrimEnd(s: string): string {
    if s != "" && IsBlank(s[|s| - 1]) then TrimEnd(s[..|s| - 1]) else s
  }

  // JavaScript `s.trim()`.
  function Trim(s: string): string {
    TrimEnd(TrimStart(s))
  }

  predicate Blank(s: string) {
    forall c | c in s :: IsBlank(c)
  }

  predicate Trimmed(s: string) {
    s != "" ==> !IsBlank(s[0]) && !IsBlank(s[|s| - 1])
  }

  // --- split and join ---------------------------------------------------------------------------

  lemma OccursLater(s: string, sep: string, j: int)
    requires s != "" && 0 <= j
    ensures Occurs(s[1..], sep, j) <==> Occurs(s, sep, j + 1)
  {
    if j + 1 <= |s| - |sep| {
      assert s[1..][j..j + |sep|] == s[j + 1..j + 1 + |sep|];
    }
  }

  lemma SplitStep(s: string, sep: string)
    requires sep != "" && s != "" && !Occurs(s, sep, 0)
    ensures Split(s, sep) == Longer(s[0], Split(s[1..], sep))
  {
  }

  // Without the separator there is nothing to split.
  lemma {:induction false} SplitWithout(s: string, sep: string)
    requires sep != "" && !Includes(s, sep)
    ensures Split(s, sep) == [s]
  {
    if s != "" {
      forall j | 0 <= j <= |s| - 1 ensures !Occurs(s[1..], sep, j) {
        OccursLater(s, sep, j);
      }
      SplitWithout(s[1..], sep);
      SplitStep(s, sep);
      assert s == [s[0]] + s[1..];
    }
  }

  predicate FirstAt(s: string, sep: string, j: int) {
    Occurs(s, sep, j) && forall i | 0 <= i < j :: !Occurs(s, sep, i)
  }

  lemma FirstAtLater(s: string, sep: string, j: nat)
    requires 0 < j && FirstAt(s, sep, j)
    ensures FirstAt(s[1..], sep, j - 1)
  {
    forall i | 0 <= i < j ensures Occurs(s[1..], sep, i) <==> Occurs(s, sep, i + 1) {
      OccursLater(s, sep, i);
    }
  }

  lemma LongerFirst(s: string, j: nat, rest: seq<string>)
    requires 0 < j <= |s|
    ensures Longer(s[0], [s[1..][..j - 1]] + rest) == [s[..j]] + rest
  {
    assert [s[0]] + s[1..][..j - 1] == s[..j];
  }

  // The leftmost separator ends the first part, whatever follows.
  lemma {:induction false} SplitAt(s: string, sep: string, j: nat)
    requires sep != "" && FirstAt(s, sep, j)
    ensures Split(s, sep) == [s[..j]] + Split(s[j + |sep|..], sep)
  {
    if j > 0 {
      FirstAtLater(s, sep, j);
      SplitAt(s[1..], sep, j - 1);
      SplitStep(s, sep);
      assert s[1..][j - 1 + |sep|..] == s[j + |sep|..];
      LongerFirst(s, j, Split(s[j + |sep|..], sep));
    }
  }

  lemma {:induction false} FirstOccurrence(s: string, sep: string, j: nat) returns (first: nat)
    requires Occurs(s, sep, j)
    ensures FirstAt(s, sep, first) && first <= j
  {
    if i :| 0 <= i < j && Occurs(s, sep, i) {
      first := FirstOccurrence(s, sep, i);
    } else {
      first := j;
    }
  }

  // With the separator put behind it, the part still ends where it did.
  predicate Ends(part: string, sep: string) {
    FirstAt(part + sep, sep, |part|)
  }

  // What can be told apart after joining: every part but the last ends at its separator, and the last
  // has none.
  predicate Separable(parts: seq<string>, sep: string)
    requires |parts| >= 1
  {
    !Includes(parts[|parts| - 1], sep) && forall i | 0 <= i < |parts| - 1 :: Ends(parts[i], sep)
  }

  // Whether a separator begins inside the first part is decided by that part and the separator alone.
  lemma FirstPartEnds(part: string, sep: string, tail: string)
    ensures FirstAt(part + sep + tail, sep, |part|) <==> Ends(part, sep)
  {
    var s := part + sep + tail;
    forall i | 0 <= i <= |part| ensures Occurs(s, sep, i) <==> Occurs(part + sep, sep, i) {
      assert s[i..i + |sep|] == (part + sep)[i..i + |sep|];
    }
  }

  // The first part survives exactly if it ends at its separator, and then so does everything else.
  lemma FirstPartSurvives(part: string, sep: string, tail: string, rest: seq<string>)
    requires sep != ""
    ensures Split(part + sep + tail, sep) == [part] + rest <==> Ends(part, sep) && Split(tail, sep) == rest
  {
    var s := part + sep + tail;
    FirstPartEnds(part, sep, tail);
    assert Occurs(s, sep, |part|);
    var first := FirstOccurrence(s, sep, |part|);
    SplitAt(s, sep, first);
    if first == |part| {
      assert s[..first] == part && s[first + |sep|..] == tail;
      assert ([part] + rest)[1..] == rest && ([part] + Split(tail, sep))[1..] == Split(tail, sep);
    } else {
      assert Split(s, sep)[0] == s[..first];
      assert |s[..first]| != |([part] + rest)[0]|;
    }
  }

  // Splitting undoes joining exactly for separable parts.
  lemma {:induction false} SplitAfterJoin(parts: seq<string>, sep: string)
    requires |parts| >= 1 && sep != ""
    ensures Split(Join(parts, sep), sep) == parts <==> Separable(parts, sep)
  {
    if |parts| == 1 {
      LonePart(parts[0], sep);
      assert parts == [parts[0]];
    } else {
      var rest := parts[1..];
      SplitAfterJoin(rest, sep);
      FirstPartSurvives(parts[0], sep, Join(rest, sep), rest);
      assert parts == [parts[0]] + rest;
      SeparableStep(parts, sep);
    }
  }

  lemma SeparableStep(parts: seq<string>, sep: string)
    requires |parts| >= 2
    ensures Separable(parts, sep) <==> Ends(parts[0], sep) && Separable(parts[1..], sep)
  {
    var rest := parts[1..];
    if Ends(parts[0], sep) && Separable(rest, sep) {
      forall i | 0 <= i < |parts| - 1 ensures Ends(parts[i], sep) {
        assert i > 0 ==> parts[i] == rest[i - 1];
      }
    }
    if Separable(parts, sep) {
      forall i | 0 <= i < |rest| - 1 ensures Ends(rest[i], sep) {
        assert rest[i] == parts[i + 1];
      }
    }
  }

  lemma LonePart(part: string, sep: string)
    requires sep != ""
    ensures Split(part, sep) == [part] <==> !Includes(part, sep)
  {
    if Includes(part, sep) {
      var j :| 0 <= j <= |part| && Occurs(part, sep, j);
      var first := FirstOccurrence(part, sep, j);
      SplitAt(part, sep, first);
      assert |Split(part, sep)| >= 2;
    } else {
      SplitWithout(part, sep);
    }
  }

  // Splitting loses nothing: the parts join to the text, and they are separable.
  lemma JoinAfterSplit(s: string, sep: string)
    requires sep != ""
    ensures Join(Split(s, sep), sep) == s
    ensures Separable(Split(s, sep), sep)
  {
    JoinsBack(s, sep);
    SplitAfterJoin(Split(s, sep), sep);
  }

  lemma JoinStep(part: string, rest: seq<string>, sep: string)
    requires |rest| >= 1
    ensures Join([part] + rest, sep) == part + sep + Join(rest, sep)
  {
    assert ([part] + rest)[1..] == rest;
  }

  lemma {:induction false} JoinsBack(s: string, sep: string)
    requires sep != ""
    ensures Join(Split(s, sep), sep) == s
    decreases |s|
  {
    if j :| 0 <= j <= |s| && Occurs(s, sep, j) {
      var first := FirstOccurrence(s, sep, j);
      var tail := s[first + |sep|..];
      SplitAt(s, sep, first);
      JoinsBack(tail, sep);
      JoinStep(s[..first], Split(tail, sep), sep);
      CutInThree(s, sep, first);
    } else {
      SplitWithout(s, sep);
    }
  }

  lemma CutInThree(s: string, sep: string, j: int)
    requires Occurs(s, sep, j)
    ensures s == s[..j] + sep + s[j + |sep|..]
  {
  }

  // For a separator of one character only that character matters.
  lemma OneCharacter(part: string, sep: char)
    ensures Includes(part, [sep]) <==> sep in part
    ensures Ends(part, [sep]) <==> sep !in part
  {
    forall j | 0 <= j < |part| ensures Occurs(part, [sep], j) <==> part[j] == sep {
      assert part[j..j + 1] == [part[j]];
    }
    var s := part + [sep];
    forall j | 0 <= j < |s| ensures Occurs(s, [sep], j) <==> s[j] == sep {
      assert s[j..j + 1] == [s[j]];
    }
    if sep in part {
      var j :| 0 <= j < |part| && part[j] == sep;
      assert Occurs(part, [sep], j) && Occurs(s, [sep], j);
    }
  }

  // A separator that overlaps itself can begin early: no part contains it, and yet splitting finds
  // other parts.
  lemma OverlappingSeparator()
    ensures var parts := ["a", "b"];
            && (forall part | part in parts :: !Includes(part, "aa"))
            && Join(parts, "aa") == "aaab"
            && Split("aaab", "aa") == ["", "ab"]
  {
    assert Join(["b"], "aa") == "b" && ["a", "b"][1..] == ["b"];
    assert "aaab"[0..2] == "aa" && "aaab"[2..] == "ab";
    assert !Includes("ab", "aa") by {
      assert "ab"[0..2][1] == 'b';
    }
    SplitWithout("ab", "aa");
  }

  // --- trim -------------------------------------------------------------------------------------

  lemma {:induction false} TrimStartPadded(left: string, s: string)
    requires Blank(left)
    ensures TrimStart(left + s) == TrimStart(s)
  {
    if left == "" {
      assert left + s == s;
    } else {
      assert left[0] in left;
      assert (left + s)[1..] == left[1..] + s;
      TrimStartPadded(left[1..], s);
    }
  }

  lemma {:induction false} TrimEndPadded(s: string, right: string)
    requires Blank(right)
    ensures TrimEnd(s + right) == TrimEnd(s)
  {
    if right == "" {
      assert s + right == s;
    } else {
      var last := |right| - 1;
      assert right[last] in right;
      assert (s + right)[..|s| + last] == s + right[..last];
      TrimEndPadded(s, right[..last]);
    }
  }

  // The blanks are the white space and line terminators of ECMAScript, 25 characters.
  lemma BlanksAre(c: char)
    ensures IsBlank(c)
            <==> || c in " \t\n\r\U{000B}\U{000C}\U{00A0}\U{FEFF}"
                 || c in "\U{1680}\U{202F}\U{205F}\U{3000}\U{2028}\U{2029}"
                 || c in "\U{2000}\U{2001}\U{2002}\U{2003}\U{2004}\U{2005}\U{2006}\U{2007}\U{2008}\U{2009}\U{200A}"
  {
  }

  lemma {:induction false} TrimStartCuts(s: string) returns (left: string)
    ensures Blank(left) && s == left + TrimStart(s)
    ensures TrimStart(s) != "" ==> !IsBlank(TrimStart(s)[0])
  {
    if s != "" && IsBlank(s[0]) {
      var rest := TrimStartCuts(s[1..]);
      left := [s[0]] + rest;
      assert s == [s[0]] + s[1..];
    } else {
      left := "";
    }
  }

  lemma {:induction false} TrimEndCuts(s: string) returns (right: string)
    ensures Blank(right) && s == TrimEnd(s) + right
    ensures TrimEnd(s) != "" ==> !IsBlank(TrimEnd(s)[|TrimEnd(s)| - 1])
  {
    if s != "" && IsBlank(s[|s| - 1]) {
      var rest := TrimEndCuts(s[..|s| - 1]);
      right := rest + [s[|s| - 1]];
      assert s == s[..|s| - 1] + [s[|s| - 1]];
    } else {
      right := "";
    }
  }

  // Trimming cuts blanks off both ends until neither end is one, and nothing else.
  lemma TrimCuts(s: string) returns (left: string, right: string)
    ensures s == left + Trim(s) + right && Blank(left) && Blank(right) && Trimmed(Trim(s))
  {
    left := TrimStartCuts(s);
    right := TrimEndCuts(TrimStart(s));
    if Trim(s) != "" {
      assert Trim(s)[0] == TrimStart(s)[0];
    }
  }

  // Trimming removes any surrounding blanks and nothing of a trimmed text.
  lemma TrimPadded(left: string, s: string, right: string)
    requires Blank(left) && Blank(right) && Trimmed(s)
    ensures Trim(left + s + right) == s
  {
    assert left + s + right == left + (s + right);
    TrimStartPadded(left, s + right);
    if s == "" {
      assert s + right == right + "" && right == "" + right;
      TrimStartPadded(right, "");
    } else {
      TrimEndPadded(s, right);
    }
  }
}
