/** The Noether scene (src/scenes/SceneSymmetry.jsx): three boxes side by side,
    each with a subtitle wrapped onto two lines by splitting it at spaces and
    putting the first half of the words on the first line. Strings are
    sequences of characters; `split(" ")` and `join(" ")` are written out. */
module Symmetry {

  /** JavaScript `s.split(" ")`: the pieces between single spaces. There is
      always at least one piece, and two adjacent spaces give an empty one. */
  function Split(s: string): (ws: seq<string>)
    ensures |ws| >= 1
    ensures forall i :: 0 <= i < |ws| ==> ' ' !in ws[i]
  {
    if |s| == 0 then [""] else
      var rest := Split(s[1..]);
      if s[0] == ' ' then [""] + rest
      else [[s[0]] + rest[0]] + rest[1..]
  }

  /** JavaScript `ws.join(" ")`: every word once, one space between each
      pair of neighbours and nothing else. */
  function Join(ws: seq<string>): (s: string)
    ensures |ws| > 0 ==> |s| == Letters(ws) + |ws| - 1
    ensures |ws| == 0 ==> s == ""
  {
    if |ws| == 0 then ""
    else if |ws| == 1 then ws[0]
    else ws[0] + " " + Join(ws[1..])
  }

  /** The total length of the words. */
  function Letters(ws: seq<string>): nat {
    if |ws| == 0 then 0 else |ws[0]| + Letters(ws[1..])
  }

  /** Prefixing a character to the first piece prefixes it to the joined string. */
  lemma JoinConsChar(c: char, w: string, rest: seq<string>)
    ensures Join([[c] + w] + rest) == [c] + Join([w] + rest)
  {
    var vs := [[c] + w] + rest;
    var us := [w] + rest;
    assert vs[1..] == rest && us[1..] == rest;
    if |rest| > 0 {
      assert [c] + w + " " + Join(rest) == [c] + (w + " " + Join(rest));
    }
  }

  /** Joining the pieces of a split gives back the string, for every string. */
  lemma {:induction false} JoinSplit(s: string)
    ensures Join(Split(s)) == s
  {
    if |s| > 0 {
      var rest := Split(s[1..]);
      JoinSplit(s[1..]);
      if s[0] == ' ' {
        assert Join([""] + rest) == "" + " " + Join(rest) by {
          assert ([""] + rest)[1..] == rest;
        }
        assert s == [' '] + s[1..];
      } else {
        JoinConsChar(s[0], rest[0], rest[1..]);
        assert rest == [rest[0]] + rest[1..];
        assert s == [s[0]] + s[1..];
      }
    }
  }

  /** A word without spaces is glued onto the first piece of whatever follows. */
  lemma {:induction false} SplitPrefix(w: string, t: string)
    requires ' ' !in w
    ensures Split(w + t) == [w + Split(t)[0]] + Split(t)[1..]
    decreases |w|
  {
    if |w| > 0 {
      assert (w + t)[1..] == w[1..] + t;
      assert w[0] in w;
      SplitPrefix(w[1..], t);
      assert [w[0]] + (w[1..] + Split(t)[0]) == w + Split(t)[0];
    } else {
      assert w + t == t;
      assert w + Split(t)[0] == Split(t)[0];
      assert Split(t) == [Split(t)[0]] + Split(t)[1..];
    }
  }

  /** Splitting a join of space-free words gives back the words. */
  lemma {:induction false} SplitJoin(ws: seq<string>)
    requires |ws| >= 1
    requires forall i :: 0 <= i < |ws| ==> ' ' !in ws[i]
    ensures Split(Join(ws)) == ws
  {
    if |ws| == 1 {
      SplitPrefix(ws[0], "");
      assert ws[0] + "" == ws[0];
    } else {
      var tail := Join(ws[1..]);
      SplitJoin(ws[1..]);
      var t := " " + tail;
      assert Split(t) == [""] + Split(tail) by {
        assert t[1..] == tail;
      }
      assert ws[0] + " " + tail == ws[0] + t;
      SplitPrefix(ws[0], t);
      assert ws[0] + "" == ws[0];
      assert ws == [ws[0]] + ws[1..];
    }
  }

  /** Joining two non-empty runs of words puts one space between their joins. */
  lemma {:induction false} JoinAppend(a: seq<string>, b: seq<string>)
    requires |a| >= 1 && |b| >= 1
    ensures Join(a + b) == Join(a) + " " + Join(b)
    decreases |a|
  {
    if |a| > 1 {
      assert (a + b)[1..] == a[1..] + b;
      JoinAppend(a[1..], b);
    } else {
      assert (a + b)[1..] == b;
    }
  }

  /** `Math.ceil(n / 2)`, the number of words on the first line. */
  function CeilHalf(n: nat): (k: nat)
    ensures n <= 2 * k <= n + 1
  {
    (n + 1) / 2
  }

  datatype Lines = Lines(line1: string, line2: string)

  /** The two subtitle lines: the first ceil(n / 2) words, and the rest.
      Read one after the other with a space between, two or more words give
      back their join; fewer all sit on the first line. */
  function WrapWords(words: seq<string>): (r: Lines)
    ensures |words| >= 2 ==> r.line1 + " " + r.line2 == Join(words)
    ensures |words| <= 1 ==> r.line1 == Join(words) && r.line2 == ""
  {
    var k := CeilHalf(|words|);
    assert words[..k] + words[k..] == words;
    assert |words| >= 2 ==> Join(words[..k]) + " " + Join(words[k..]) == Join(words) by {
      if |words| >= 2 {
        JoinAppend(words[..k], words[k..]);
      }
    }
    assert |words| <= 1 ==> words[..k] == words && words[k..] == [];
    Lines(Join(words[..k]), Join(words[k..]))
  }

  /** The lines split the words into two consecutive runs, the first at most
      one word longer than the second. */
  lemma WrapIsBalanced(words: seq<string>)
    ensures var k := CeilHalf(|words|);
      words[..k] + words[k..] == words
      && 0 <= |words[..k]| - |words[k..]| <= 1
      && WrapWords(words) == Lines(Join(words[..k]), Join(words[k..]))
  {
    var k := CeilHalf(|words|);
    assert words[..k] + words[k..] == words;
  }

  /** The subtitle's two lines, joined again with a space, give back the
      subtitle when it has two or more pieces; a one-piece subtitle sits
      entirely on the first line and the second is empty. */
  lemma SubtitleRoundTrip(subtitle: string)
    ensures var r := WrapWords(Split(subtitle));
      if |Split(subtitle)| >= 2 then r.line1 + " " + r.line2 == subtitle
      else r.line1 == subtitle && r.line2 == ""
  {
    JoinSplit(subtitle);
  }

  /** The width of each box, `0.28 w`. */
  function BoxWidth(w: real): real {
    w * 0.28
  }

  /** The outer margin, `0.06 w`. */
  function StartX(w: real): real {
    w * 0.06
  }

  /** The gap left between the boxes once the margins and three boxes are taken. */
  function Spacing(w: real): (gap: real)
    ensures gap == 0.02 * w
    ensures w > 0.0 ==> gap > 0.0
  {
    (w - StartX(w) * 2.0 - BoxWidth(w) * 3.0) / 2.0
  }

  /** The left edge of box idx: the margin, then 0.30 w per box before it
      (its width 0.28 w and a gap of 0.02 w). */
  function BoxX(w: real, idx: int): (x: real)
    ensures x == w * (0.06 + 0.3 * idx as real)
  {
    var step := BoxWidth(w) + Spacing(w);
    assert step == 0.3 * w;
    StartX(w) + idx as real * step
  }

  /** The layout fills the width exactly: margin, box, gap, box, gap, box,
      margin; the boxes do not overlap and the margins are equal. */
  lemma LayoutFillsWidth(w: real)
    requires w > 0.0
    ensures BoxX(w, 0) == StartX(w)
    ensures BoxX(w, 2) + BoxWidth(w) == w - StartX(w)
    ensures forall idx :: 0 <= idx < 2 ==> BoxX(w, idx) + BoxWidth(w) < BoxX(w, idx + 1)
  {
    forall idx | 0 <= idx < 2
      ensures BoxX(w, idx) + BoxWidth(w) < BoxX(w, idx + 1)
    {
      assert BoxX(w, idx + 1) == BoxX(w, idx) + BoxWidth(w) + Spacing(w);
    }
  }

  /** The layout is mirror-symmetric about the centre: box 2 - idx is the
      reflection of box idx. */
  lemma LayoutIsMirrored(w: real, idx: int)
    requires 0 <= idx <= 2
    ensures BoxX(w, 2 - idx) + BoxWidth(w) == w - BoxX(w, idx)
  {
  }
}
