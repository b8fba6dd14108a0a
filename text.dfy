/** The string helpers that every extractor defines locally: `clean_text`
    (`re.sub(r'\s+', ' ', text).strip()`) and the `str.split()`, `str.strip()`
    and `str.join` behaviour it is built from. */
module Text {

  predicate IsSpace(c: char) { SpaceCode(c as int) }

  predicate SpaceCode(n: int)
  {
    || n == 0x20 || 0x09 <= n <= 0x0D || 0x1C <= n <= 0x1F || n == 0x85 || n == 0xA0
    || n == 0x1680 || 0x2000 <= n <= 0x200A || n == 0x2028 || n == 0x2029
    || n == 0x202F || n == 0x205F || n == 0x3000
  }

  lemma SpaceIsSpace()
    ensures IsSpace(' ')
  {
  }

  predicate NoSpace(s: string) { forall i :: 0 <= i < |s| ==> !IsSpace(s[i]) }

  predicate IsWord(w: string) { w != "" && NoSpace(w) }

  predicate AllWords(ws: seq<string>) { forall i :: 0 <= i < |ws| ==> IsWord(ws[i]) }

  predicate IsClean(s: string)
  {
    && (s != "" ==> !IsSpace(s[0]) && !IsSpace(s[|s| - 1]))
    && (forall i :: 0 <= i < |s| && IsSpace(s[i]) ==> s[i] == ' ')
    && (forall i :: 0 <= i < |s| - 1 ==> !IsSpace(s[i]) || !IsSpace(s[i + 1]))
  }

  function DropSpaces(s: string): string
  {
    if s != "" && IsSpace(s[0]) then DropSpaces(s[1..]) else s
  }

  lemma {:induction false} DropSpacesIsSuffix(s: string)
    ensures |DropSpaces(s)| <= |s| && DropSpaces(s) == s[|s| - |DropSpaces(s)|..]
    ensures DropSpaces(s) == "" || !IsSpace(DropSpaces(s)[0])
  {
    if s != "" && IsSpace(s[0]) {
      DropSpacesIsSuffix(s[1..]);
    }
  }

  function DropTrailingSpaces(s: string): string
  {
    if s != "" && IsSpace(s[|s| - 1]) then DropTrailingSpaces(s[..|s| - 1]) else s
  }

  function Strip(s: string): string
  {
    DropTrailingSpaces(DropSpaces(s))
  }

  /** `re.sub(r'\s+', ' ', s)`: of each maximal whitespace run only the last
      character survives, and it becomes a plain space. */
  function Collapse(s: string): string
  {
    if s == "" then ""
    else if IsSpace(s[0]) && |s| > 1 && IsSpace(s[1]) then Collapse(s[1..])
    else if IsSpace(s[0]) then " " + Collapse(s[1..])
    else [s[0]] + Collapse(s[1..])
  }

  function CleanText(s: string): string
  {
    Strip(Collapse(s))
  }

  /** `str.split()` with no argument. */
  function Words(s: string): (ws: seq<string>)
    ensures s != "" && !IsSpace(s[0]) ==> ws != []
  {
    if s == "" then []
    else if IsSpace(s[0]) then Words(s[1..])
    else
      var ws := Words(s[1..]);
      if |s| > 1 && !IsSpace(s[1]) then [[s[0]] + ws[0]] + ws[1..] else [[s[0]]] + ws
  }

  function Join(parts: seq<string>, sep: string): string
  {
    if |parts| == 0 then ""
    else if |parts| == 1 then parts[0]
    else parts[0] + sep + Join(parts[1..], sep)
  }

  /** `"".join(parts)`. */
  function Concat(parts: seq<string>): string
  {
    if parts == [] then "" else parts[0] + Concat(parts[1..])
  }

  lemma {:induction false} WordsAreWords(s: string)
    ensures AllWords(Words(s))
  {
    if s != "" {
      WordsAreWords(s[1..]);
      if !IsSpace(s[0]) {
        var ws := Words(s[1..]);
        var r := Words(s);
        if |s| > 1 && !IsSpace(s[1]) {
          var h := [s[0]] + ws[0];
          assert forall k :: 0 < k < |h| ==> h[k] == ws[0][k - 1];
          assert forall i :: 0 < i < |r| ==> r[i] == ws[i];
        } else {
          assert forall i :: 0 < i < |r| ==> r[i] == ws[i - 1];
        }
      }
    }
  }

  lemma JoinCons(w: string, ws: seq<string>)
    requires ws != []
    ensures Join([w] + ws, " ") == w + " " + Join(ws, " ")
  {
    assert ([w] + ws)[1..] == ws;
  }

  lemma JoinExtendHead(c: char, ws: seq<string>)
    requires ws != []
    ensures Join([[c] + ws[0]] + ws[1..], " ") == [c] + Join(ws, " ")
  {
    var ws' := [[c] + ws[0]] + ws[1..];
    if |ws| > 1 {
      assert ws'[1..] == ws[1..];
      var rest := Join(ws[1..], " ");
      assert Join(ws', " ") == ([c] + ws[0]) + " " + rest;
      assert Join(ws, " ") == ws[0] + " " + rest;
      SeqAssoc3(c, ws[0], " ", rest);
    }
  }

  lemma SeqAssoc3(c: char, a: string, b: string, d: string)
    ensures ([c] + a) + b + d == [c] + (a + b + d)
  {
  }

  /** Words(t) empty means t is all whitespace. */
  lemma {:induction false} NoWordsAllSpace(t: string)
    requires Words(t) == [] && t != ""
    ensures IsSpace(t[|t| - 1])
  {
    if |t| > 1 {
      NoWordsAllSpace(t[1..]);
    }
  }

  function EndPad(s: string): string
  {
    if Words(s) != [] && s != "" && IsSpace(s[|s| - 1]) then " " else ""
  }

  function LeadPad(s: string): string
  {
    if s != "" && IsSpace(s[0]) then " " else ""
  }

  lemma {:induction false} CollapseShape(s: string)
    ensures Collapse(s) == LeadPad(s) + Join(Words(s), " ") + EndPad(s)
  {
    if s != "" {
      var t := s[1..];
      CollapseShape(t);
      if !IsSpace(s[0]) {
        CollapseWordStart(s);
      } else if |s| > 1 && IsSpace(s[1]) {
        CollapseSpaceSpace(s);
      } else {
        CollapseSpaceWord(s);
      }
    }
  }

  lemma CollapseSpaceSpace(s: string)
    requires |s| > 1 && IsSpace(s[0]) && IsSpace(s[1])
    requires Collapse(s[1..]) == LeadPad(s[1..]) + Join(Words(s[1..]), " ") + EndPad(s[1..])
    ensures Collapse(s) == LeadPad(s) + Join(Words(s), " ") + EndPad(s)
  {
    var t := s[1..];
    assert Collapse(s) == Collapse(t) && Words(s) == Words(t);
    assert LeadPad(s) == " " && LeadPad(t) == " ";
    assert s[|s| - 1] == t[|t| - 1];
    assert EndPad(s) == EndPad(t);
  }

  lemma CollapseSpaceWord(s: string)
    requires s != "" && IsSpace(s[0]) && (|s| == 1 || !IsSpace(s[1]))
    requires Collapse(s[1..]) == LeadPad(s[1..]) + Join(Words(s[1..]), " ") + EndPad(s[1..])
    ensures Collapse(s) == LeadPad(s) + Join(Words(s), " ") + EndPad(s)
  {
    var t := s[1..];
    assert Collapse(s) == " " + Collapse(t);
    assert Words(s) == Words(t);
    assert LeadPad(s) == " " && LeadPad(t) == "";
    if t == "" {
      assert Words(s) == [];
    } else {
      EndPadOfTail(s);
      PadsAgree(Collapse(s), Collapse(t), Join(Words(s), " "), EndPad(s));
    }
  }

  lemma PadsAgree(c: string, ct: string, j: string, e: string)
    requires c == " " + ct && ct == "" + j + e
    ensures c == " " + j + e
  {
  }

  /** Dropping a first character that starts no word keeps the end padding. */
  lemma EndPadOfTail(s: string)
    requires |s| > 1 && Words(s) == Words(s[1..])
    ensures EndPad(s) == EndPad(s[1..])
  {
    var t := s[1..];
    assert s[|s| - 1] == t[|t| - 1];
  }

  lemma CollapseWordStart(s: string)
    requires s != "" && !IsSpace(s[0])
    requires Collapse(s[1..]) == LeadPad(s[1..]) + Join(Words(s[1..]), " ") + EndPad(s[1..])
    ensures Collapse(s) == LeadPad(s) + Join(Words(s), " ") + EndPad(s)
  {
    var t := s[1..];
    if t == "" {
      assert Words(s) == [[s[0]]];
    } else if !IsSpace(t[0]) {
      CollapseWordWord(s);
    } else if Words(t) == [] {
      CollapseWordSpaces(s);
    } else {
      CollapseWordSpaceWord(s);
    }
  }

  lemma CollapseWordWord(s: string)
    requires |s| > 1 && !IsSpace(s[0]) && !IsSpace(s[1])
    requires Collapse(s[1..]) == LeadPad(s[1..]) + Join(Words(s[1..]), " ") + EndPad(s[1..])
    ensures Collapse(s) == LeadPad(s) + Join(Words(s), " ") + EndPad(s)
  {
    var t := s[1..];
    assert LeadPad(t) == "" && LeadPad(s) == "";
    JoinExtendHead(s[0], Words(t));
    assert s[|s| - 1] == t[|t| - 1];
    assert EndPad(s) == EndPad(t);
    assert Collapse(s) == [s[0]] + Collapse(t);
    HeadPadsAgree(Collapse(s), Collapse(t), [s[0]], Join(Words(t), " "), Join(Words(s), " "), EndPad(s));
  }

  lemma HeadPadsAgree(c: string, ct: string, w: string, j: string, jw: string, e: string)
    requires c == w + ct && ct == "" + j + e && jw == w + j
    ensures c == "" + jw + e
  {
  }

  lemma CollapseWordSpaces(s: string)
    requires |s| > 1 && !IsSpace(s[0]) && IsSpace(s[1]) && Words(s[1..]) == []
    requires Collapse(s[1..]) == LeadPad(s[1..]) + Join(Words(s[1..]), " ") + EndPad(s[1..])
    ensures Collapse(s) == LeadPad(s) + Join(Words(s), " ") + EndPad(s)
  {
    var t := s[1..];
    assert LeadPad(t) == " " && EndPad(t) == "";
    NoWordsAllSpace(t);
    assert s[|s| - 1] == t[|t| - 1];
    assert Words(s) == [[s[0]]];
  }

  lemma CollapseWordSpaceWord(s: string)
    requires |s| > 1 && !IsSpace(s[0]) && IsSpace(s[1]) && Words(s[1..]) != []
    requires Collapse(s[1..]) == LeadPad(s[1..]) + Join(Words(s[1..]), " ") + EndPad(s[1..])
    ensures Collapse(s) == LeadPad(s) + Join(Words(s), " ") + EndPad(s)
  {
    var t := s[1..];
    var ws := Words(t);
    assert LeadPad(t) == " " && LeadPad(s) == "";
    assert Words(s) == [[s[0]]] + ws;
    JoinCons([s[0]], ws);
    assert s[|s| - 1] == t[|t| - 1];
    assert EndPad(s) == EndPad(t);
    assert Collapse(s) == [s[0]] + Collapse(t);
    WordPadsAgree(Collapse(s), Collapse(t), [s[0]], Join(ws, " "), Join(Words(s), " "), EndPad(s));
  }

  lemma WordPadsAgree(c: string, ct: string, w: string, j: string, jw: string, e: string)
    requires c == w + ct && ct == " " + j + e && jw == w + " " + j
    ensures c == "" + jw + e
  {
  }

  lemma {:induction false} JoinWordsEdges(ws: seq<string>)
    requires AllWords(ws)
    ensures var j := Join(ws, " "); (ws == [] <==> j == "") && (j != "" ==> !IsSpace(j[0]) && !IsSpace(j[|j| - 1]))
  {
    if |ws| > 1 {
      JoinWordsEdges(ws[1..]);
      var j := Join(ws, " ");
      assert j == ws[0] + " " + Join(ws[1..], " ");
      assert j[0] == ws[0][0];
    }
  }

  lemma StripPaddedEmpty(pre: string)
    requires pre == "" || pre == " "
    ensures Strip(pre + "" + "") == ""
  {
    assert pre + "" + "" == pre;
    if pre == " " {
      SpaceIsSpace();
      assert DropSpaces(pre) == DropSpaces("");
    }
  }

  lemma DropLeadPad(pre: string, x: string)
    requires pre == "" || pre == " "
    ensures DropSpaces(pre + x) == DropSpaces(x)
  {
    if pre == " " {
      assert (pre + x)[1..] == x;
    } else {
      assert pre + x == x;
    }
  }

  lemma DropEndPad(j: string, e: string)
    requires e == "" || e == " "
    requires j != "" && !IsSpace(j[|j| - 1])
    ensures DropTrailingSpaces(j + e) == j
  {
    if e == "" {
      assert j + e == j;
    } else {
      assert (j + e)[..|j|] == j;
    }
  }

  lemma StripPaddedWords(pre: string, j: string, e: string)
    requires pre == "" || pre == " "
    requires e == "" || e == " "
    requires j != "" && !IsSpace(j[0]) && !IsSpace(j[|j| - 1])
    ensures Strip(pre + j + e) == j
  {
    var je := j + e;
    assert pre + j + e == pre + je;
    DropLeadPad(pre, je);
    assert je[0] == j[0];
    assert DropSpaces(je) == je;
    DropEndPad(j, e);
  }

  /** `clean_text(s)` is `" ".join(s.split())`. */
  lemma CleanTextIsJoinedWords(s: string)
    ensures CleanText(s) == Join(Words(s), " ")
  {
    CollapseShape(s);
    WordsAreWords(s);
    JoinWordsEdges(Words(s));
    if Words(s) == [] {
      StripPaddedEmpty(LeadPad(s));
    } else {
      StripPaddedWords(LeadPad(s), Join(Words(s), " "), EndPad(s));
    }
  }

  /** Words joined by single spaces have the shape `clean_text` promises. */
  lemma {:induction false} JoinedWordsAreClean(ws: seq<string>)
    requires AllWords(ws)
    ensures IsClean(Join(ws, " "))
  {
    JoinWordsEdges(ws);
    if |ws| > 1 {
      JoinedWordsAreClean(ws[1..]);
      var rest := Join(ws[1..], " ");
      JoinWordsEdges(ws[1..]);
      var j := ws[0] + " " + rest;
      assert j == Join(ws, " ");
      forall i | 0 <= i < |j| && IsSpace(j[i]) ensures j[i] == ' ' {
        if i > |ws[0]| { assert j[i] == rest[i - |ws[0]| - 1]; }
      }
      forall i | 0 <= i < |j| - 1 ensures !IsSpace(j[i]) || !IsSpace(j[i + 1]) {
        if i > |ws[0]| {
          assert j[i] == rest[i - |ws[0]| - 1] && j[i + 1] == rest[i - |ws[0]|];
        }
      }
    }
  }

  /** `clean_text` never leaves whitespace at either end or two whitespace
      characters in a row, and every whitespace character it keeps is a space. */
  lemma CleanTextIsClean(s: string)
    ensures IsClean(CleanText(s))
  {
    CleanTextIsJoinedWords(s);
    WordsAreWords(s);
    JoinedWordsAreClean(Words(s));
  }

  lemma {:induction false} WordsOfWordThen(w: string, x: string)
    requires IsWord(w) && (x == "" || IsSpace(x[0]))
    ensures Words(w + x) == [w] + Words(x)
    decreases |w|
  {
    var s := w + x;
    if |w| == 1 {
      assert s[1..] == x;
      assert [s[0]] == w;
    } else {
      assert s[1..] == w[1..] + x;
      WordsOfWordThen(w[1..], x);
      assert [s[0]] + w[1..] == w;
    }
  }

  /** Splitting words joined by single spaces gives the words back. */
  lemma {:induction false} WordsOfJoin(ws: seq<string>)
    requires AllWords(ws)
    ensures Words(Join(ws, " ")) == ws
  {
    if |ws| == 1 {
      WordsOfWordThen(ws[0], "");
      assert ws[0] + "" == ws[0];
    } else if |ws| > 1 {
      var rest := Join(ws[1..], " ");
      assert Join(ws, " ") == ws[0] + (" " + rest);
      WordsOfWordThen(ws[0], " " + rest);
      assert (" " + rest)[1..] == rest;
      WordsOfJoin(ws[1..]);
    }
  }

  /** `clean_text` keeps exactly the words of its input. */
  lemma CleanTextKeepsWords(s: string)
    ensures Words(CleanText(s)) == Words(s)
  {
    CleanTextIsJoinedWords(s);
    WordsAreWords(s);
    WordsOfJoin(Words(s));
  }

  /** `clean_text` is idempotent. */
  lemma CleanTextIdempotent(s: string)
    ensures CleanText(CleanText(s)) == CleanText(s)
  {
    CleanTextKeepsWords(s);
    CleanTextIsJoinedWords(CleanText(s));
    CleanTextIsJoinedWords(s);
  }
}
