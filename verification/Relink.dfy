/** Cleaning the raw name of a title (`parse_name` in src/relink.rs): pulling out the provider tags in
    square brackets and collapsing the blanks that are left. */
module Relink {
  import opened Options

  datatype Provider = Tmdb | Imdb | Tvdb

  datatype ProviderId = ProviderId(provider: Provider, value: string)

  // ------------------------------------------------------------------ text

  /** The blanks of Unicode. */
  predicate IsBlank(c: char) {
    || '\t' <= c <= '\r' || c == ' ' || c == '\U{85}' || c == '\U{A0}' || c == '\U{1680}'
    || '\U{2000}' <= c <= '\U{200A}' || c == '\U{2028}' || c == '\U{2029}' || c == '\U{202F}'
    || c == '\U{205F}' || c == '\U{3000}'
  }

  function TrimStart(s: string): string {
    if s != [] && IsBlank(s[0]) then TrimStart(s[1..]) else s
  }

  function TrimEnd(s: string): string {
    if s != [] && IsBlank(s[|s| - 1]) then TrimEnd(s[..|s| - 1]) else s
  }

  function Trim(s: string): string {
    TrimEnd(TrimStart(s))
  }

  function LowerChar(c: char): char {
    if 'A' <= c <= 'Z' then (c as int + 32) as char else c
  }

  function Lower(s: string): (r: string)
    ensures |r| == |s| && forall i :: 0 <= i < |s| ==> r[i] == LowerChar(s[i])
  {
    if s == [] then [] else [LowerChar(s[0])] + Lower(s[1..])
  }

  /** Where a character is first found from here on, or the length of the text. */
  function Find(s: string, c: char, from: nat): (n: nat)
    requires from <= |s|
    ensures from <= n <= |s| && (n < |s| ==> s[n] == c)
    ensures forall i :: from <= i < n ==> s[i] != c
    decreases |s| - from
  {
    if from == |s| || s[from] == c then from else Find(s, c, from + 1)
  }

  predicate IsCut(c: char) {
    c == '-' || c == '='
  }

  function FindCut(s: string, from: nat): (n: nat)
    requires from <= |s|
    ensures from <= n <= |s| && (n < |s| ==> IsCut(s[n]))
    ensures forall i :: from <= i < n ==> !IsCut(s[i])
    decreases |s| - from
  {
    if from == |s| || IsCut(s[from]) then from else FindCut(s, from + 1)
  }

  function WordEnd(s: string, from: nat): (n: nat)
    requires from <= |s|
    ensures from <= n <= |s| && (n < |s| ==> IsBlank(s[n]))
    ensures forall i :: from <= i < n ==> !IsBlank(s[i])
    decreases |s| - from
  {
    if from == |s| || IsBlank(s[from]) then from else WordEnd(s, from + 1)
  }

  function Words(s: string): seq<string>
    decreases |s|
  {
    if s == [] then []
    else if IsBlank(s[0]) then Words(s[1..])
    else [s[..WordEnd(s, 0)]] + Words(s[WordEnd(s, 0)..])
  }

  function Join(words: seq<string>): string {
    if words == [] then ""
    else if |words| == 1 then words[0]
    else words[0] + " " + Join(words[1..])
  }

  /** The words of a text with one blank between them. */
  function Collapse(s: string): string {
    Join(Words(s))
  }

  /** The code points Unicode calls white space. */
  const WHITE_SPACE: set<int> :=
    { 0x9, 0xA, 0xB, 0xC, 0xD, 0x20, 0x85, 0xA0, 0x1680, 0x2000, 0x2001, 0x2002, 0x2003, 0x2004, 0x2005, 0x2006,
      0x2007, 0x2008, 0x2009, 0x200A, 0x2028, 0x2029, 0x202F, 0x205F, 0x3000 }

  lemma BlanksAreWhiteSpace(c: char)
    ensures IsBlank(c) <==> c as int in WHITE_SPACE
  {
  }

  /** Only ASCII letters have a lower case here: the one as far from `a` as they are from `A`. */
  lemma LowerExactly(c: char)
    ensures if 'A' <= c <= 'Z' then LowerChar(c) as int - 'a' as int == c as int - 'A' as int else LowerChar(c) == c
  {
  }

  /** What is trimmed off is the blanks at both ends, and no more. */
  lemma TrimExactly(s: string) returns (left: string, right: string)
    ensures s == left + Trim(s) + right
    ensures (forall c :: c in left ==> IsBlank(c)) && (forall c :: c in right ==> IsBlank(c))
    ensures Trim(s) != [] ==> !IsBlank(Trim(s)[0]) && !IsBlank(Trim(s)[|Trim(s)| - 1])
  {
    left := TrimmedStart(s);
    right := TrimmedEnd(TrimStart(s));
  }

  lemma {:induction false} TrimmedStart(s: string) returns (left: string)
    ensures s == left + TrimStart(s) && forall c :: c in left ==> IsBlank(c)
    ensures TrimStart(s) != [] ==> !IsBlank(TrimStart(s)[0])
    decreases |s|
  {
    hide IsBlank;
    left := "";
    if s != [] && IsBlank(s[0]) {
      var rest := TrimmedStart(s[1..]);
      left := [s[0]] + rest;
    }
  }

  lemma {:induction false} TrimmedEnd(s: string) returns (right: string)
    ensures s == TrimEnd(s) + right && forall c :: c in right ==> IsBlank(c)
    ensures TrimEnd(s) != [] ==> !IsBlank(TrimEnd(s)[|TrimEnd(s)| - 1]) && TrimEnd(s)[0] == s[0]
    decreases |s|
  {
    hide IsBlank;
    right := "";
    if s != [] && IsBlank(s[|s| - 1]) {
      var rest := TrimmedEnd(s[..|s| - 1]);
      right := rest + [s[|s| - 1]];
      assert s == s[..|s| - 1] + [s[|s| - 1]];
    }
  }

  // ------------------------------------------------------------------ tags

  function ProviderOf(key: string): Option<Provider> {
    if key == "tmdbid" || key == "tmdb" then Some(Tmdb)
    else if key == "imdbid" || key == "imdb" then Some(Imdb)
    else if key == "tvdbid" || key == "tvdb" then Some(Tvdb)
    else None
  }

  /** What the text between two brackets says, if it is a tag Jellyfin understands. */
  function TagOf(inner: string): Option<ProviderId> {
    var n := FindCut(inner, 0);
    if n == |inner| then None
    else
      var provider, value := ProviderOf(Lower(Trim(inner[..n]))), Trim(inner[n + 1..]);
      if provider.None? || value == "" then None else Some(ProviderId(provider.value, value))
  }

  /** A tag is a key that one of three providers goes by, up to the first `-` or `=`, and something after it. */
  lemma TagExactly(key: string, cut: char, value: string)
    requires (cut == '-' || cut == '=') && '-' !in key && '=' !in key
    ensures var k, v := Lower(Trim(key)), Trim(value);
            TagOf(key + [cut] + value) ==
            if v == "" then None
            else if k == "tmdbid" || k == "tmdb" then Some(ProviderId(Tmdb, v))
            else if k == "imdbid" || k == "imdb" then Some(ProviderId(Imdb, v))
            else if k == "tvdbid" || k == "tvdb" then Some(ProviderId(Tvdb, v))
            else None
  {
    hide Lower, Trim;
    var inner := key + [cut] + value;
    assert FindCut(inner, 0) == |key| by {
      forall i | 0 <= i < |key| ensures !IsCut(inner[i]) {
        assert inner[i] == key[i];
      }
      assert inner[|key|] == cut;
    }
    assert inner[..|key|] == key && inner[|key| + 1..] == value;
  }

  lemma NoCutNoTag(inner: string)
    requires '-' !in inner && '=' !in inner
    ensures TagOf(inner) == None
  {
    assert forall i :: 0 <= i < |inner| ==> inner[i] in inner;
  }

  datatype Scanned = Scanned(rest: string, ids: seq<ProviderId>)

  /** From each opening bracket to the first closing one after it: a tag goes, anything else stays. */
  function Scan(tail: string): Scanned
    decreases |tail|
  {
    var open := Find(tail, '[', 0);
    if open == |tail| then Scanned(tail, [])
    else
      var close := Find(tail, ']', open);
      if close == |tail| then Scanned(tail, [])
      else
        var tag, after := TagOf(tail[open + 1..close]), Scan(tail[close + 1..]);
        match tag
        case Some(id) => Scanned(tail[..open] + after.rest, [id] + after.ids)
        case None => Scanned(tail[..open] + tail[open..close + 1] + after.rest, after.ids)
  }

  datatype Parsed = Parsed(withoutTags: string, ids: seq<ProviderId>)

  function Parse(raw: string): Parsed {
    Parsed(Collapse(Scan(raw).rest), Scan(raw).ids)
  }

  /** Everything from here on stays. */
  lemma ScanEnds(tail: string)
    requires Find(tail, '[', 0) < |tail| ==> Find(tail, ']', Find(tail, '[', 0)) == |tail|
    ensures Scan(tail) == Scanned(tail, [])
  {
  }

  /** One turn of the scan: what it puts on the rest and on the ids. */
  lemma ScanTurn(tail: string, open: nat, close: nat)
    requires open == Find(tail, '[', 0) < |tail| && close == Find(tail, ']', open) < |tail|
    ensures var tag, after := TagOf(tail[open + 1..close]), Scan(tail[close + 1..]);
            if tag.Some? then Scan(tail) == Scanned(tail[..open] + after.rest, [tag.value] + after.ids)
            else Scan(tail) == Scanned(tail[..open] + tail[open..close + 1] + after.rest, after.ids)
  {
    hide TagOf, Find;
  }

  /** In words of the text itself: what stands between the first `[` and the next `]` goes if it is a tag, and else
      stays, brackets and all; what is before them stays, and what is after them is cleaned in turn. */
  lemma ScanExactly(before: string, inner: string, after: string)
    requires '[' !in before && ']' !in inner
    ensures var rest := Scan(after);
            Scan(before + "[" + inner + "]" + after) ==
            match TagOf(inner)
            case Some(id) => Scanned(before + rest.rest, [id] + rest.ids)
            case None => Scanned(before + "[" + inner + "]" + rest.rest, rest.ids)
  {
    hide TagOf, Scan, Find;
    var open, close := |before|, |before| + 1 + |inner|;
    var tail := before + "[" + inner + "]" + after;
    BracketsAt(before, inner, after);
    ScanTurn(tail, open, close);
    assert tail[..open] == before && tail[open + 1..close] == inner && tail[close + 1..] == after;
    assert tail[open..close + 1] == "[" + inner + "]";
    Onto(before, "[" + inner, "]", []);
  }

  /** And without an opening bracket, or without a closing one after it, all of it stays. */
  lemma NothingLeftToScan(before: string, inner: string)
    requires '[' !in before && ']' !in inner
    ensures Scan(before) == Scanned(before, []) && Scan(before + "[" + inner) == Scanned(before + "[" + inner, [])
  {
    hide TagOf, Scan, Find;
    BracketsAt(before, inner, "");
    ScanEnds(before);
    ScanEnds(before + "[" + inner);
  }

  lemma BracketsAt(before: string, inner: string, after: string)
    requires '[' !in before && ']' !in inner
    ensures var tail := before + "[" + inner + "]" + after;
            Find(tail, '[', 0) == |before| && Find(tail, ']', |before|) == |before| + 1 + |inner|
    ensures Find(before, '[', 0) == |before|
    ensures var torn := before + "[" + inner; Find(torn, '[', 0) == |before| && Find(torn, ']', |before|) == |torn|
  {
    var tail, torn := before + "[" + inner + "]" + after, before + "[" + inner;
    var open, close := |before|, |before| + 1 + |inner|;
    assert tail[open] == '[' && torn[open] == '[' && tail[close] == ']';
    forall i | 0 <= i < open ensures tail[i] != '[' && torn[i] != '[' && before[i] != '[' {
      assert tail[i] == before[i] == torn[i];
    }
    forall i | open <= i < close ensures tail[i] != ']' && torn[i] != ']' {
      assert i > open ==> tail[i] == inner[i - open - 1] == torn[i];
    }
  }

  lemma Onto<T>(a: seq<T>, b: seq<T>, c: seq<T>, d: seq<T>)
    ensures a + (b + c) == (a + b) + c == a + b + c
    ensures a + (b + c + d) == (a + b) + c + d
  {
  }

  method ParseName(raw: string) returns (withoutTags: string, ids: seq<ProviderId>)
    ensures Parsed(withoutTags, ids) == Parse(raw)
  {
    hide Scan, TagOf, Words, Join, Find;
    var rest, tail := "", raw;
    ids := [];
    while true
      invariant rest + Scan(tail).rest == Scan(raw).rest
      invariant ids + Scan(tail).ids == Scan(raw).ids
      decreases |tail|
    {
      var open := Find(tail, '[', 0);
      if open == |tail| {
        ScanEnds(tail);
        break;
      }
      var close := Find(tail, ']', open);
      if close == |tail| {
        ScanEnds(tail);
        break;
      }
      ScanTurn(tail, open, close);
      var tag := TagOf(tail[open + 1..close]);
      ghost var after := Scan(tail[close + 1..]);
      Onto(rest, tail[..open], after.rest, []);
      Onto(rest, tail[..open], tail[open..close + 1], after.rest);
      rest := rest + tail[..open];
      if tag.Some? {
        Onto(ids, [tag.value], after.ids, []);
        ids := ids + [tag.value];
      } else {
        rest := rest + tail[open..close + 1];
      }
      tail := tail[close + 1..];
    }
    rest := rest + tail;
    withoutTags := Collapse(rest);
  }

  // ------------------------------------------------------------------ blanks, one character at a time

  /** Where in a text we are: before its first word, in a word, or in the blanks after one. */
  datatype Place = Start | InWord | Gap

  function Blank(p: Place): Place {
    if p == Start then Start else Gap
  }

  function GapText(p: Place): string {
    if p == Gap then " " else ""
  }

  function Norm(s: string, p: Place): string {
    if s == [] then ""
    else if IsBlank(s[0]) then Norm(s[1..], Blank(p))
    else GapText(p) + [s[0]] + Norm(s[1..], InWord)
  }

  function After(s: string, p: Place): Place {
    if s == [] then p
    else if IsBlank(s[0]) then After(s[1..], Blank(p))
    else After(s[1..], InWord)
  }

  /** With the gap that is still to come when another word follows. */
  function NormGap(s: string, p: Place): string {
    Norm(s, p) + GapText(After(s, p))
  }

  lemma JoinOneMore(word: string, words: seq<string>)
    ensures Join([word] + words) == word + if words == [] then "" else " " + Join(words)
  {
    assert ([word] + words)[1..] == words;
  }

  lemma AfterAWord(x: string)
    requires x != [] ==> IsBlank(x[0])
    ensures Norm(x, InWord) == if x == [] then "" else Norm(x[1..], Gap)
    ensures Words(x) == if x == [] then [] else Words(x[1..])
  {
  }

  lemma GapThenWord(word: string, rest: string)
    ensures GapText(Start) + word + rest == word + rest == GapText(InWord) + word + rest
    ensures GapText(Gap) + word + rest == " " + (word + rest)
  {
  }

  lemma WordsTurn(s: string)
    requires s != [] && !IsBlank(s[0])
    ensures 0 < WordEnd(s, 0) && Words(s) == [s[..WordEnd(s, 0)]] + Words(s[WordEnd(s, 0)..])
  {
  }

  lemma {:induction false} NormIsJoin(s: string)
    ensures Norm(s, Start) == Collapse(s)
    ensures Norm(s, Gap) == if Words(s) == [] then "" else " " + Collapse(s)
    decreases |s|
  {
    if s == [] {
    } else if IsBlank(s[0]) {
      NormIsJoin(s[1..]);
    } else {
      var n := WordEnd(s, 0);
      var w, x := s[..n], s[n..];
      hide Norm, Words, WordEnd;
      WordsTurn(s);
      AWordStays(s, n, Start);
      AWordStays(s, n, Gap);
      AfterAWord(x);
      JoinOneMore(w, Words(x));
      hide Join;
      if x != [] {
        NormIsJoin(x[1..]);
      }
      GapThenWord(w, Norm(x, InWord));
    }
  }

  /** One more character in front. */
  lemma OneCharacter(c: char, rest: string, p: Place)
    ensures Norm([c] + rest, p) == if IsBlank(c) then Norm(rest, Blank(p)) else GapText(p) + [c] + Norm(rest, InWord)
    ensures After([c] + rest, p) == After(rest, if IsBlank(c) then Blank(p) else InWord)
    ensures NormGap([c] + rest, p)
         == if IsBlank(c) then NormGap(rest, Blank(p)) else GapText(p) + [c] + NormGap(rest, InWord)
  {
    assert ([c] + rest)[1..] == rest;
  }

  lemma Regroup(a: string, b: string, c: string, d: string, e: string, f: string)
    ensures a + (b + c + d + e + f) == (a + b) + c + d + e + f
  {
  }

  lemma Peel(k: string, c: char, v: string)
    requires k != []
    ensures k == [k[0]] + k[1..] && k + [c] + v == [k[0]] + (k[1..] + [c] + v)
  {
  }

  lemma LongerWord(g: string, c: char, w: string, after: string)
    ensures g + [c] + ("" + w + after) == g + ([c] + w) + after
  {
  }

  lemma {:induction false} AWordStays(s: string, n: nat, p: Place)
    requires 0 < n <= |s| && forall i :: 0 <= i < n ==> !IsBlank(s[i])
    ensures Norm(s, p) == GapText(p) + s[..n] + Norm(s[n..], InWord)
  {
    hide Norm, IsBlank;
    var c, rest := s[0], s[1..];
    assert s == [c] + rest;
    OneCharacter(c, rest, p);
    if n == 1 {
      assert s[..n] == [c];
    } else {
      AWordStays(rest, n - 1, InWord);
      assert rest[n - 1..] == s[n..] && s[..n] == [c] + rest[..n - 1];
      LongerWord(GapText(p), c, rest[..n - 1], Norm(s[n..], InWord));
    }
  }

  /** A character that is no blank splits the work in two. */
  lemma {:induction false} Around(k: string, c: char, v: string, p: Place)
    requires !IsBlank(c)
    ensures Norm(k + [c] + v, p) == NormGap(k, p) + [c] + Norm(v, InWord)
    ensures After(k + [c] + v, p) == After(v, InWord)
  {
    if k == [] {
      assert k + [c] + v == [c] + v;
      OneCharacter(c, v, p);
    } else {
      hide Norm, NormGap, After;
      var first, rest := k[0], k[1..];
      var p' := if IsBlank(first) then Blank(p) else InWord;
      Around(rest, c, v, p');
      OneCharacter(first, rest, p);
      OneCharacter(first, rest + [c] + v, p);
      Peel(k, c, v);
      Onto(GapText(p) + [first], NormGap(rest, p'), [c], Norm(v, InWord));
    }
  }

  /** What has been collapsed collapses to the same. */
  lemma {:induction false} NormTwice(k: string, p: Place)
    ensures Norm(NormGap(k, InWord), p) == Norm(k, p)
    ensures Norm(NormGap(k, Gap), p) == Norm(k, Blank(p))
  {
    if k == [] {
      assert NormGap(k, InWord) == "" && NormGap(k, Gap) == " ";
    } else {
      hide NormGap, Norm, After;
      var c, rest := k[0], k[1..];
      assert k == [c] + rest;
      OneCharacter(c, rest, InWord);
      OneCharacter(c, rest, Gap);
      OneCharacter(c, rest, p);
      OneCharacter(c, rest, Blank(p));
      if IsBlank(c) {
        NormTwice(rest, p);
        NormTwice(rest, Blank(p));
      } else {
        NormTwice(rest, InWord);
        var n := NormGap(rest, InWord);
        GapThenWord([c], n);
        OneCharacter(c, n, p);
        OneCharacter(c, n, Blank(p));
        OneCharacter(' ', [c] + n, p);
      }
    }
  }

  lemma {:induction false} ABlankAtTheEnd(s: string, p: Place)
    ensures Norm(s + " ", p) == Norm(s, p)
  {
    if s == [] {
      assert s + " " == " ";
    } else {
      assert (s + " ")[1..] == s[1..] + " ";
      ABlankAtTheEnd(s[1..], if IsBlank(s[0]) then Blank(p) else InWord);
    }
  }

  /** Collapsing is idempotent. */
  lemma {:induction false} CollapseTwice(s: string)
    ensures Norm(Norm(s, Start), Start) == Norm(s, Start)
  {
    if s != [] {
      if IsBlank(s[0]) {
        CollapseTwice(s[1..]);
      } else {
        assert Norm(s, Start) == Norm(s, InWord);
        NormTwice(s, Start);
        if After(s, InWord) == Gap {
          ABlankAtTheEnd(Norm(s, InWord), Start);
        } else {
          assert NormGap(s, InWord) == Norm(s, InWord);
        }
      }
    }
  }

  // ------------------------------------------------------------------ blanks make no tag and break none

  ghost predicate HasBlank(s: string) {
    exists i :: 0 <= i < |s| && IsBlank(s[i])
  }

  lemma {:induction false} NormOfTrimStart(s: string)
    ensures Norm(TrimStart(s), Start) == Norm(s, Start)
  {
    if s != [] && IsBlank(s[0]) {
      NormOfTrimStart(s[1..]);
    }
  }

  lemma {:induction false} NormOfTrimEnd(s: string, p: Place)
    ensures Norm(TrimEnd(s), p) == Norm(s, p)
  {
    if s != [] && IsBlank(s[|s| - 1]) {
      var n := |s| - 1;
      NormOfTrimEnd(s[..n], p);
      BlankLast(s[..n], s[n], p);
      assert s == s[..n] + [s[n]];
    }
  }

  lemma {:induction false} BlankLast(s: string, c: char, p: Place)
    requires IsBlank(c)
    ensures Norm(s + [c], p) == Norm(s, p)
  {
    if s == [] {
      assert s + [c] == [c];
    } else {
      assert (s + [c])[1..] == s[1..] + [c];
      BlankLast(s[1..], c, if IsBlank(s[0]) then Blank(p) else InWord);
    }
  }

  lemma {:induction false} TrimmedEnds(s: string)
    ensures TrimStart(s) != [] ==> !IsBlank(TrimStart(s)[0])
    ensures TrimEnd(s) != [] ==> !IsBlank(TrimEnd(s)[|TrimEnd(s)| - 1]) && TrimEnd(s)[0] == s[0]
    decreases |s|
  {
    if s != [] {
      if IsBlank(s[0]) {
        TrimmedEnds(s[1..]);
      }
      if IsBlank(s[|s| - 1]) {
        TrimmedEnds(s[..|s| - 1]);
      }
    }
  }

  /** A text without blanks stays as it is. */
  lemma NoBlanksInside(t: string)
    requires !HasBlank(t)
    ensures Norm(t, Start) == t
  {
    if t != [] {
      AWordStays(t, |t|, Start);
      assert Norm(t, Start) == "" + t[..|t|] + Norm(t[|t|..], InWord);
    }
  }

  /** And one with a blank between two words keeps one. */
  lemma {:induction false} BlanksInside(t: string, p: Place)
    requires HasBlank(t) && !IsBlank(t[|t| - 1])
    requires IsBlank(t[0]) ==> p != Start
    ensures HasBlank(Norm(t, p))
  {
    if IsBlank(t[0]) {
      GapShows(t[1..]);
      assert Norm(t, p)[0] == ' ';
    } else {
      var i :| 0 <= i < |t| && IsBlank(t[i]);
      assert IsBlank(t[1..][i - 1]);
      BlanksInside(t[1..], InWord);
      var rest := Norm(t[1..], InWord);
      var j :| 0 <= j < |rest| && IsBlank(rest[j]);
      assert IsBlank((GapText(p) + [t[0]] + rest)[|GapText(p)| + 1 + j]);
    }
  }

  lemma {:induction false} GapShows(k: string)
    requires k != [] && !IsBlank(k[|k| - 1])
    ensures Norm(k, Gap) != [] && Norm(k, Gap)[0] == ' '
  {
    if IsBlank(k[0]) {
      GapShows(k[1..]);
    }
  }

  lemma LowerKeepsBlanks(s: string, key: string)
    requires Lower(s) == key && forall i :: 0 <= i < |key| ==> !IsBlank(key[i])
    ensures !HasBlank(s)
  {
    forall i | 0 <= i < |s| ensures !IsBlank(s[i]) {
      assert key[i] == LowerChar(s[i]);
    }
  }

  lemma KeysHaveNoBlank(s: string)
    requires ProviderOf(Lower(s)).Some?
    ensures !HasBlank(s)
  {
    var key := Lower(s);
    assert key in {"tmdbid", "tmdb", "imdbid", "imdb", "tvdbid", "tvdb"};
    LowerKeepsBlanks(s, key);
  }

  /** Whether a text is a provider's key can be told from its words. */
  lemma KeyByItsWords(k: string)
    ensures ProviderOf(Lower(Trim(k))) == ProviderOf(Lower(Norm(k, Start)))
  {
    hide ProviderOf, Lower, Trim, Norm;
    var t := Trim(k);
    TrimMeans(k);
    if HasBlank(t) {
      BlanksInsideAreNoKey(t);
    } else {
      NoBlanksInside(t);
    }
  }

  lemma TrimMeans(k: string)
    ensures Norm(Trim(k), Start) == Norm(k, Start)
    ensures Trim(k) != [] ==> !IsBlank(Trim(k)[0]) && !IsBlank(Trim(k)[|Trim(k)| - 1])
  {
    hide TrimStart, Norm, IsBlank;
    TrimmedEnds(k);
    TrimmedEnds(TrimStart(k));
    NormOfTrimStart(k);
    NormOfTrimEnd(TrimStart(k), Start);
  }

  lemma BlankMeansNoKey(s: string)
    requires HasBlank(s)
    ensures ProviderOf(Lower(s)).None?
  {
    hide HasBlank, ProviderOf, Lower;
    if ProviderOf(Lower(s)).Some? {
      KeysHaveNoBlank(s);
    }
  }

  lemma BlanksInsideAreNoKey(t: string)
    requires HasBlank(t) && !IsBlank(t[0]) && !IsBlank(t[|t| - 1])
    ensures ProviderOf(Lower(t)).None? && ProviderOf(Lower(Norm(t, Start))).None?
  {
    BlanksInside(t, Start);
    hide HasBlank, ProviderOf, Lower, Norm;
    BlankMeansNoKey(t);
    BlankMeansNoKey(Norm(t, Start));
  }

  lemma EmptyByItsWords(v: string)
    ensures Trim(v) == [] <==> Norm(v, Start) == []
  {
    hide Trim;
    TrimMeans(v);
  }

  /** Collapsing what stands between two brackets does not change whether it is a tag. */
  lemma StillNoTag(inner: string)
    ensures TagOf(NormGap(inner, InWord)).None? <==> TagOf(inner).None?
  {
    var n := FindCut(inner, 0);
    var inner' := NormGap(inner, InWord);
    if n == |inner| {
      NothingNew(inner, InWord);
      forall i | 0 <= i < |inner'| ensures !IsCut(inner'[i]) {
        assert inner'[i] in inner';
      }
    } else {
      var k, c, v := inner[..n], inner[n], inner[n + 1..];
      assert inner == k + [c] + v;
      Around(k, c, v, InWord);
      var k', v' := NormGap(k, InWord), NormGap(v, InWord);
      assert inner' == k' + [c] + v';
      CutIsFirst(k, c, v');
      assert inner'[..|k'|] == k' && inner'[|k'| + 1..] == v';
      KeyByItsWords(k);
      KeyByItsWords(k');
      NormTwice(k, Start);
      EmptyByItsWords(v);
      EmptyByItsWords(v');
      NormTwice(v, Start);
    }
  }

  /** Collapsing brings in no character but a blank. */
  lemma {:induction false} NothingNew(s: string, p: Place)
    ensures forall c :: c in NormGap(s, p) ==> c in s || c == ' '
  {
    if s != [] {
      NothingNew(s[1..], if IsBlank(s[0]) then Blank(p) else InWord);
      assert forall c :: c in s[1..] ==> c in s;
    }
  }

  lemma CutIsFirst(k: string, c: char, v: string)
    requires IsCut(c) && forall i :: 0 <= i < |k| ==> !IsCut(k[i])
    ensures FindCut(NormGap(k, InWord) + [c] + v, 0) == |NormGap(k, InWord)|
  {
    NothingNew(k, InWord);
    var k' := NormGap(k, InWord);
    var s := k' + [c] + v;
    forall i | 0 <= i < |k'| ensures !IsCut(s[i]) {
      assert k'[i] in k';
    }
    assert s[|k'|] == c;
  }

  // ------------------------------------------------------------------ cleaning twice

  ghost predicate Without(s: string, c: char) {
    forall i :: 0 <= i < |s| ==> s[i] != c
  }

  lemma FoundAt(s: string, c: char, from: nat, n: nat)
    requires from <= n <= |s| && (n < |s| ==> s[n] == c)
    requires forall i :: from <= i < n ==> s[i] != c
    ensures Find(s, c, from) == n
  {
    hide Find;
  }

  /** How a scan sees a text put together from the text before a bracket, the bracket, and the rest. */
  lemma ScanOf(before: string, inner: string, after: string)
    requires Without(before, '[') && Without(inner, ']')
    ensures var s := before + "[" + inner + "]" + after;
            Scan(s).ids == (if TagOf(inner).Some? then [TagOf(inner).value] else []) + Scan(after).ids
  {
    var s := before + "[" + inner + "]" + after;
    var open, close := |before|, |before| + 1 + |inner|;
    forall i | open <= i < close ensures s[i] != ']' {
      assert i > open ==> s[i] == inner[i - open - 1];
    }
    FoundAt(s, '[', 0, open);
    FoundAt(s, ']', open, close);
    assert s[open + 1..close] == inner && s[close + 1..] == after;
    hide Find;
    ScanTurn(s, open, close);
    hide Scan, TagOf;
  }

  /** No opening bracket, or none that is closed. */
  lemma NothingToScan(before: string, rest: string)
    requires Without(before, '[') && (rest == [] || (rest[0] == '[' && Without(rest, ']')))
    ensures Scan(before + rest) == Scanned(before + rest, [])
  {
    var s := before + rest;
    FoundAt(s, '[', 0, |before|);
    if rest != [] {
      forall i | |before| <= i < |s| ensures s[i] != ']' {
        assert s[i] == rest[i - |before|];
      }
      FoundAt(s, ']', |before|, |s|);
    }
    hide Find;
    ScanEnds(s);
  }

  /** The first bracket of a text, if it has one that is closed. */
  datatype Cut = Whole(before: string, open: string) | Split(before: string, inner: string, after: string)

  ghost function CutAt(s: string): Cut {
    var open := Find(s, '[', 0);
    if open == |s| then Whole(s, "")
    else
      var close := Find(s, ']', open);
      if close == |s| then Whole(s[..open], s[open..])
      else Split(s[..open], s[open + 1..close], s[close + 1..])
  }

  lemma Slices(s: string, open: nat, close: nat)
    requires open < close < |s| && s[open] == '[' && s[close] == ']'
    ensures s[open..close + 1] == "[" + s[open + 1..close] + "]"
    ensures s == s[..open] + "[" + s[open + 1..close] + "]" + s[close + 1..]
  {
  }

  lemma SliceIsWithout(s: string, c: char, from: nat, to: nat)
    requires from <= to <= |s| && forall i :: from <= i < to ==> s[i] != c
    ensures Without(s[from..to], c)
  {
  }

  lemma CutMeans(s: string)
    ensures Without(CutAt(s).before, '[')
    ensures CutAt(s).Whole? ==>
              var rest := CutAt(s).open;
              && s == CutAt(s).before + rest && (rest == [] || (rest[0] == '[' && Without(rest, ']')))
              && Scan(s) == Scanned(s, [])
    ensures CutAt(s).Split? ==>
              var cut := CutAt(s);
              && s == cut.before + "[" + cut.inner + "]" + cut.after && Without(cut.inner, ']')
              && |cut.after| < |s|
              && Scan(s).rest
                 == cut.before + (if TagOf(cut.inner).Some? then "" else "[" + cut.inner + "]") + Scan(cut.after).rest
  {
    hide Find, TagOf, Scan, Without;
    var open := Find(s, '[', 0);
    SliceIsWithout(s, '[', 0, open);
    if open == |s| {
      ScanEnds(s);
      assert s[0..open] == s == s + "";
    } else {
      var close := Find(s, ']', open);
      assert s[0..open] == s[..open];
      if close == |s| {
        ScanEnds(s);
        SliceIsWithout(s, ']', open, |s|);
        assert s[open..|s|] == s[open..] && s == s[..open] + s[open..];
      } else {
        ScanTurn(s, open, close);
        Slices(s, open, close);
        SliceIsWithout(s, ']', open + 1, close);
        assert s[..open] + "" + Scan(s[close + 1..]).rest == s[..open] + Scan(s[close + 1..]).rest;
      }
    }
  }

  /** Text before a bracket does not change what is scanned after it. */
  lemma TextInFront(front: string, s: string)
    requires Without(front, '[')
    ensures Scan(front + s).ids == Scan(s).ids
  {
    CutMeans(s);
    hide Scan, TagOf, Find, CutAt;
    var cut := CutAt(s);
    assert Without(front + cut.before, '[');
    match cut
    case Whole(before, open) =>
      assert front + (before + open) == (front + before) + open;
      NothingToScan(front + before, open);
    case Split(before, inner, after) =>
      Regroup(front, before, "[", inner, "]", after);
      ScanOf(before, inner, after);
      ScanOf(front + before, inner, after);
  }

  /** A text in which no tag is found is left as it is. */
  lemma {:induction false} NoTagNoChange(s: string)
    requires Scan(s).ids == []
    ensures Scan(s).rest == s
    decreases |s|
  {
    CutMeans(s);
    hide Scan, TagOf, Find, CutAt;
    match CutAt(s)
    case Whole(before, open) =>
    case Split(before, inner, after) =>
      ScanOf(before, inner, after);
      NoTagNoChange(after);
      assert s == before + ("[" + inner + "]") + after;
  }

  /** What a scan leaves has no tag in it. */
  lemma {:induction false} NoTagIsLeft(s: string)
    ensures Scan(Scan(s).rest).ids == []
    decreases |s|
  {
    CutMeans(s);
    hide Scan, TagOf, Find, CutAt;
    match CutAt(s)
    case Whole(before, open) =>
    case Split(before, inner, after) =>
      var rest := Scan(after).rest;
      NoTagIsLeft(after);
      if TagOf(inner).Some? {
        assert before + "" + rest == before + rest;
        TextInFront(before, rest);
      } else {
        assert before + ("[" + inner + "]") + rest == before + "[" + inner + "]" + rest;
        ScanOf(before, inner, rest);
      }
  }

  lemma NormHasNo(s: string, c: char, p: Place)
    requires Without(s, c) && c != ' '
    ensures Without(NormGap(s, p), c)
  {
    NothingNew(s, p);
    var n := NormGap(s, p);
    forall i | 0 <= i < |n| ensures n[i] != c {
      assert n[i] in n;
    }
  }

  lemma NormHasNoEither(s: string, c: char, p: Place)
    requires Without(s, c) && c != ' '
    ensures Without(Norm(s, p), c)
  {
    NormHasNo(s, c, p);
    assert NormGap(s, p)[..|Norm(s, p)|] == Norm(s, p);
  }

  lemma CollapsingTheWhole(before: string, open: string, p: Place)
    requires Without(before, '[') && (open == [] || (open[0] == '[' && Without(open, ']')))
    ensures Scan(Norm(before + open, p)).ids == []
  {
    hide Scan, Norm, Without;
    if open == [] {
      CollapsingNoBracket(before, p);
      assert before + open == before;
    } else {
      CollapsingAnOpenOne(before, open, p);
    }
  }

  lemma CollapsingNoBracket(before: string, p: Place)
    requires Without(before, '[')
    ensures Scan(Norm(before, p)).ids == []
  {
    hide Scan, Norm, Without;
    NormHasNoEither(before, '[', p);
    NothingToScan(Norm(before, p), []);
    assert Norm(before, p) + [] == Norm(before, p);
  }

  lemma WithoutMore(c: char, s: string, t: string)
    requires Without(s, c) && Without(t, c)
    ensures Without(s + t, c) && (|s| > 0 ==> Without(s[1..], c))
  {
  }

  lemma CollapsingAnOpenOne(before: string, open: string, p: Place)
    requires Without(before, '[') && open != [] && open[0] == '[' && Without(open, ']')
    ensures Scan(Norm(before + open, p)).ids == []
  {
    hide Scan, Norm, NormGap;
    var v := open[1..];
    WithoutMore(']', open, []);
    Around(before, '[', v, p);
    NormHasNo(before, '[', p);
    NormHasNoEither(v, ']', InWord);
    assert open == ['['] + v && before + open == before + ['['] + v;
    var n := Norm(v, InWord);
    assert Without(['['], ']');
    WithoutMore(']', ['['], n);
    NothingToScan(NormGap(before, p), ['['] + n);
    assert NormGap(before, p) + (['['] + n) == NormGap(before, p) + ['['] + n;
  }

  lemma CollapsingABracket(before: string, inner: string, after: string, p: Place)
    ensures Norm(before + "[" + inner + "]" + after, p)
         == NormGap(before, p) + "[" + NormGap(inner, InWord) + "]" + Norm(after, InWord)
  {
    var rest := inner + [']'] + after;
    Around(before, '[', rest, p);
    Around(inner, ']', after, InWord);
    hide Norm, NormGap;
    assert before + "[" + inner + "]" + after == before + ['['] + rest;
    Regroup(NormGap(before, p) + ['['], [], NormGap(inner, InWord), [']'], Norm(after, InWord), []);
  }

  /** And collapsing the blanks neither makes a tag nor breaks one. */
  lemma {:induction false} CollapsingMakesNoTag(s: string, p: Place)
    ensures |Scan(Norm(s, p)).ids| == |Scan(s).ids|
    decreases |s|
  {
    CutMeans(s);
    hide Scan, TagOf, Norm, NormGap, Find, CutAt;
    match CutAt(s)
    case Whole(before, open) =>
      CollapsingTheWhole(before, open, p);
    case Split(before, inner, after) =>
      ScanOf(before, inner, after);
      CollapsingMakesNoTag(after, InWord);
      NormHasNo(before, '[', p);
      NormHasNo(inner, ']', InWord);
      StillNoTag(inner);
      CollapsingABracket(before, inner, after, p);
      ScanOf(NormGap(before, p), NormGap(inner, InWord), Norm(after, InWord));
  }

  /** Cleaning is idempotent and leaves no recognised tag: a name that has been cleaned is cleaned to
      itself, and no provider id is found in it. */
  lemma CleaningTwice(raw: string)
    ensures Parse(Parse(raw).withoutTags) == Parsed(Parse(raw).withoutTags, [])
  {
    hide Scan, Norm, Words, Join;
    var rest := Scan(raw).rest;
    NoTagIsLeft(raw);
    NormIsJoin(rest);
    CollapsingMakesNoTag(rest, Start);
    var clean := Parse(raw).withoutTags;
    NoTagNoChange(clean);
    CollapseTwice(rest);
    NormIsJoin(clean);
  }

  /** A name with no recognised tag only has its blanks collapsed. */
  lemma OrdinaryNamesAreLeftAlone(raw: string)
    requires Parse(raw).ids == []
    ensures Parse(raw).withoutTags == Collapse(raw)
  {
    NoTagNoChange(raw);
  }

  lemma LongKeysAreNone(inner: string, n: nat)
    requires n < |inner| && IsCut(inner[n]) && forall i :: 0 <= i < n ==> !IsCut(inner[i]) && !IsBlank(inner[i])
    requires n > 6
    ensures TagOf(inner).None?
  {
    assert FindCut(inner, 0) == n;
    var k := inner[..n];
    assert TrimEnd(TrimStart(k)) == k;
    assert |Lower(k)| == n;
  }

  /** The text of a tag can be left when it stands inside another bracket, which ends where the tag does:
      no tag is found in such a name, the first time or again. */
  lemma ATagInsideABracketStays()
    ensures Parse("[tm[tmdb-1]") == Parsed("[tm[tmdb-1]", [])
  {
    var raw, inner := "[tm[tmdb-1]", "tm[tmdb-1";
    hide TagOf, Norm, Words, Join, Scan, NormGap, Find, FindCut, Trim, Lower;
    LongKeysAreNone(inner, 7);
    assert raw == "" + "[" + inner + "]" + "";
    ScanOf("", inner, "");
    NothingToScan("", "");
    assert "" + "" == "";
    NoTagNoChange(raw);
    assert !HasBlank(raw);
    NoBlanksInside(raw);
    NormIsJoin(raw);
  }
}
