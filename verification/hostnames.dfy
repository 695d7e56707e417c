/** Hostname lists as the operator types them: one comma-separated string
    such as "@, www". Splitting is shared by the configuration compiler and
    the forced-update handler; normalisation is applied when a target is
    saved. */
module Hostnames {
  import opened Text
  import opened Seqs

  /** Every element stripped (`str.strip`). */
  function StripAll(xs: seq<string>): (r: seq<string>)
    ensures |r| == |xs|
    ensures forall i :: 0 <= i < |xs| ==> r[i] == Strip(xs[i])
  {
    seq(|xs|, i requires 0 <= i < |xs| => Strip(xs[i]))
  }

  /** The non-empty elements, in order. */
  function NonEmpty(xs: seq<string>): (r: seq<string>)
    ensures forall i :: 0 <= i < |r| ==> r[i] != "" && r[i] in xs
    decreases |xs|
  {
    if |xs| == 0 then []
    else
      var prefix := NonEmpty(xs[..|xs| - 1]);
      if xs[|xs| - 1] == "" then prefix else prefix + [xs[|xs| - 1]]
  }

  /** Both `_split_hosts` and `_split_hostnames`: the comma-separated pieces,
      stripped, empty ones dropped, in their original order, duplicates kept. */
  function SplitHostnames(value: string): (r: seq<string>)
    ensures AllHostPieces(r)
  {
    var parts := Split(value, ',');
    PiecesOfParts(parts);
    NonEmpty(StripAll(parts))
  }

  /** A hostname as a split piece: non-empty, stripped and comma-free. */
  predicate IsHostPiece(h: string) {
    h != "" && IsStripped(h) && ',' !in h
  }

  predicate AllHostPieces(xs: seq<string>) {
    forall i :: 0 <= i < |xs| ==> IsHostPiece(xs[i])
  }

  lemma StripKeepsOut(s: string, c: char)
    requires c !in s
    ensures c !in Strip(s)
  {
    StripIsInfix(s);
    InfixKeepsOut(s, Margin(s), Margin(s) + |Strip(s)|, c);
  }

  lemma InfixKeepsOut(s: string, i: nat, j: nat, c: char)
    requires i <= j <= |s| && c !in s
    ensures c !in s[i..j]
  {
    forall k | 0 <= k < j - i ensures s[i..j][k] != c {
      assert s[i..j][k] == s[i + k];
    }
  }

  /** Comma-free parts, stripped and with the empty ones dropped, are host
      pieces. */
  lemma PiecesOfParts(parts: seq<string>)
    requires forall k :: 0 <= k < |parts| ==> ',' !in parts[k]
    ensures AllHostPieces(NonEmpty(StripAll(parts)))
  {
    var stripped := StripAll(parts);
    forall i | 0 <= i < |stripped| ensures ',' !in stripped[i] {
      StripKeepsOut(parts[i], ',');
    }
    var r := NonEmpty(stripped);
    forall i | 0 <= i < |r| ensures IsHostPiece(r[i]) {
      var k :| 0 <= k < |stripped| && stripped[k] == r[i];
    }
  }

  lemma {:induction false} NonEmptyAppend(xs: seq<string>, ys: seq<string>)
    ensures NonEmpty(xs + ys) == NonEmpty(xs) + NonEmpty(ys)
    decreases |ys|
  {
    if |ys| == 0 {
      assert xs + ys == xs;
    } else {
      var zs := xs + ys;
      assert zs[..|zs| - 1] == xs + ys[..|ys| - 1];
      assert zs[|zs| - 1] == ys[|ys| - 1];
      NonEmptyAppend(xs, ys[..|ys| - 1]);
    }
  }

  lemma {:induction false} SplitAppend(a: string, b: string, c: char)
    ensures Split(a + [c] + b, c) == Split(a, c) + Split(b, c)
    decreases |a|
  {
    if |a| == 0 {
      assert a + [c] + b == [c] + b;
      ConsParts(c, b);
    } else {
      FrontParts(a, [c] + b);
      assert a + [c] + b == a + ([c] + b);
      assert a[1..] + [c] + b == a[1..] + ([c] + b);
      SplitAppend(a[1..], b, c);
      var p := Split(a[1..], c);
      var q := Split(b, c);
      if a[0] == c {
        ConsAssoc("", p, q);
      } else {
        FrontParts(p, q);
        ConsAssoc([a[0]] + p[0], p[1..], q);
      }
    }
  }

  lemma StripAllAppend(xs: seq<string>, ys: seq<string>)
    ensures StripAll(xs + ys) == StripAll(xs) + StripAll(ys)
  {
  }

  /** Splitting is a homomorphism over commas: the hostnames of "a,b" are the
      hostnames of "a" followed by those of "b". */
  lemma SplitHostnamesAppend(a: string, b: string)
    ensures SplitHostnames(a + "," + b) == SplitHostnames(a) + SplitHostnames(b)
  {
    assert a + "," + b == a + [','] + b;
    SplitAppend(a, b, ',');
    StripAllAppend(Split(a, ','), Split(b, ','));
    NonEmptyAppend(StripAll(Split(a, ',')), StripAll(Split(b, ',')));
  }

  /** A comma-free piece that is blank, such as "  ", gives no hostname. */
  lemma SplitBlankPiece(a: string)
    requires ',' !in a && Strip(a) == ""
    ensures SplitHostnames(a) == []
  {
    SplitNoSeparator(a, ',');
    assert StripAll([a]) == [""];
    assert NonEmpty([""]) == [] by {
      assert [""][..0] == [];
    }
  }

  /** Pieces that are all blank, such as " , ", give no hostname at all. */
  lemma {:induction false} SplitAllBlank(a: string, b: string)
    requires ',' !in a && Strip(a) == ""
    requires SplitHostnames(b) == []
    ensures SplitHostnames(a + "," + b) == []
  {
    SplitHostnamesAppend(a, b);
    SplitBlankPiece(a);
  }

  /** A comma-free piece that is not blank is one hostname, stripped. */
  lemma SplitOnePiece(a: string)
    requires ',' !in a && Strip(a) != ""
    ensures SplitHostnames(a) == [Strip(a)]
  {
    SplitNoSeparator(a, ',');
    var stripped := StripAll([a]);
    assert stripped == [Strip(a)];
    NonEmptyOfNonEmpty(stripped);
  }

  /** Two comma-separated pieces, such as "@, www", give exactly their two
      stripped hostnames, in order. */
  lemma SplitTwoPieces(a: string, b: string)
    requires ',' !in a && Strip(a) != ""
    requires ',' !in b && Strip(b) != ""
    ensures SplitHostnames(a + "," + b) == [Strip(a), Strip(b)]
  {
    SplitHostnamesAppend(a, b);
    SplitOnePiece(a);
    SplitOnePiece(b);
  }

  predicate NoDuplicates(xs: seq<string>) {
    forall i, j :: 0 <= i < j < |xs| ==> xs[i] != xs[j]
  }

  /** The position of the first `x` in `xs`, or `|xs|` when there is none. */
  function FirstIndex(xs: seq<string>, x: string): (k: nat)
    ensures k <= |xs|
    ensures forall i :: 0 <= i < k ==> xs[i] != x
    ensures k < |xs| ==> xs[k] == x
    decreases |xs|
  {
    if |xs| == 0 then 0
    else if xs[0] == x then 0
    else
      var k := FirstIndex(xs[1..], x);
      assert forall i :: 1 <= i < 1 + k ==> xs[i] == xs[1..][i - 1];
      1 + k
  }

  /** Appending an element moves no first index of an element already
      present, and a new element's first index is the old length. */
  lemma FirstIndexExtend(xs: seq<string>, x: string, y: string)
    ensures y in xs ==> FirstIndex(xs, y) < |xs| && FirstIndex(xs + [x], y) == FirstIndex(xs, y)
    ensures y !in xs && y == x ==> FirstIndex(xs + [x], y) == |xs|
  {
    var ys := xs + [x];
    if y in xs {
      assert ys[FirstIndex(xs, y)] == y;
    } else if y == x {
      assert ys[|xs|] == y;
    }
  }

  /** The first occurrence of every element, in order of first appearance. */
  function Dedupe(xs: seq<string>): (r: seq<string>)
    ensures NoDuplicates(r)
    ensures forall x :: x in r <==> x in xs
    ensures forall i, j :: 0 <= i < j < |r| ==> FirstIndex(xs, r[i]) < FirstIndex(xs, r[j])
    decreases |xs|
  {
    if |xs| == 0 then []
    else
      var init := xs[..|xs| - 1];
      var last := xs[|xs| - 1];
      var prefix := Dedupe(init);
      assert xs == init + [last];
      assert forall x :: x in xs <==> x in init || x == last;
      forall y | y in init
        ensures FirstIndex(init, y) < |init| && FirstIndex(xs, y) == FirstIndex(init, y)
      {
        FirstIndexExtend(init, last, y);
      }
      if last in prefix then prefix
      else
        FirstIndexExtend(init, last, last);
        prefix + [last]
  }

  lemma {:induction false} DedupeOfDistinct(xs: seq<string>)
    requires NoDuplicates(xs)
    ensures Dedupe(xs) == xs
    decreases |xs|
  {
    if |xs| > 0 {
      var init := xs[..|xs| - 1];
      var last := xs[|xs| - 1];
      DedupeOfDistinct(init);
      assert last !in Dedupe(init);
      assert Dedupe(xs) == Dedupe(init) + [last];
      assert init + [last] == xs;
    }
  }

  /** The normalised form a saved target's `host` takes: the split pieces
      without repeats, joined by ", ". */
  function Normalized(value: string): string {
    Join(Dedupe(SplitHostnames(value)), ", ")
  }

  /** `_normalize_hostnames`: trims each piece, skips empty pieces and pieces
      already seen, and joins what is left with ", ". */
  method NormalizeHostnames(value: string) returns (r: string)
    ensures r == Normalized(value)
  {
    var hosts := StripAll(Split(value, ','));
    var normalized: seq<string> := [];
    var seen: set<string> := {};
    for i := 0 to |hosts|
      invariant normalized == Kept(hosts[..i])
      invariant forall x :: x in seen <==> x in normalized
    {
      var host := hosts[i];
      TakeOneMore(hosts, i);
      if host == "" || host in seen {
        continue;
      }
      normalized := normalized + [host];
      seen := seen + {host};
    }
    TakeAll(hosts);
    KeptIsDedupe(hosts);
    r := Join(normalized, ", ");
  }

  lemma TakeOneMore(xs: seq<string>, i: nat)
    requires i < |xs|
    ensures xs[..i + 1] == xs[..i] + [xs[i]]
  {
  }

  lemma TakeAll(xs: seq<string>)
    ensures xs[..|xs|] == xs
  {
  }

  /** What the loop of `_normalize_hostnames` keeps of the stripped pieces. */
  function Kept(xs: seq<string>): seq<string>
    decreases |xs|
  {
    if |xs| == 0 then []
    else
      var prefix := Kept(xs[..|xs| - 1]);
      var x := xs[|xs| - 1];
      if x == "" || x in prefix then prefix else prefix + [x]
  }

  /** The pieces the loop keeps are the non-empty ones without repeats. */
  lemma {:induction false} KeptIsDedupe(xs: seq<string>)
    ensures Kept(xs) == Dedupe(NonEmpty(xs))
    decreases |xs|
  {
    if |xs| > 0 {
      var init := xs[..|xs| - 1];
      KeptIsDedupe(init);
      assert init + [xs[|xs| - 1]] == xs;
      DedupeNonEmptyStep(init, xs[|xs| - 1]);
    }
  }

  /** One more piece: skipped when empty or already kept, appended otherwise. */
  lemma DedupeNonEmptyStep(xs: seq<string>, x: string)
    ensures Dedupe(NonEmpty(xs + [x])) ==
      if x == "" || x in Dedupe(NonEmpty(xs)) then Dedupe(NonEmpty(xs)) else Dedupe(NonEmpty(xs)) + [x]
  {
    assert (xs + [x])[..|xs|] == xs;
    if x != "" {
      var ys := NonEmpty(xs);
      assert NonEmpty(xs + [x]) == ys + [x];
      assert (ys + [x])[..|ys|] == ys;
    }
  }

  /** Every piece after the first, with the space that ", " puts before it. */
  function PadTail(xs: seq<string>): (r: seq<string>)
    requires |xs| >= 1
    ensures |r| == |xs| && r[0] == xs[0]
    ensures forall i :: 1 <= i < |xs| ==> r[i] == " " + xs[i]
  {
    [xs[0]] + seq(|xs| - 1, i requires 0 <= i < |xs| - 1 => " " + xs[i + 1])
  }

  lemma {:induction false} JoinCommaSpace(xs: seq<string>)
    requires |xs| >= 1
    ensures Join(xs, ", ") == Join(PadTail(xs), ",")
    decreases |xs|
  {
    if |xs| > 1 {
      JoinCommaSpace(xs[1..]);
      var p := PadTail(xs);
      var q := PadTail(xs[1..]);
      PadTailShift(xs);
      JoinExtendFirst(" ", q);
      assert Join(p, ",") == p[0] + "," + Join(p[1..], ",");
    }
  }

  lemma PadTailShift(xs: seq<string>)
    requires |xs| > 1
    ensures PadTail(xs)[1..] == [" " + PadTail(xs[1..])[0]] + PadTail(xs[1..])[1..]
  {
  }

  /** Extending the first piece of a join extends the joined text. */
  lemma JoinExtendFirst(a: string, ys: seq<string>)
    requires |ys| >= 1
    ensures Join([a + ys[0]] + ys[1..], ",") == a + Join(ys, ",")
  {
    var zs := [a + ys[0]] + ys[1..];
    if |ys| > 1 {
      var rest := Join(ys[1..], ",");
      assert zs[1..] == ys[1..];
      assert Join(zs, ",") == (a + ys[0]) + "," + rest;
      assert Join(ys, ",") == ys[0] + "," + rest;
      Assoc4(a, ys[0], ",", rest);
    }
  }

  lemma Assoc4(a: string, b: string, c: string, d: string)
    ensures a + b + c + d == a + (b + c + d)
  {
    forall i | 0 <= i < |a + b + c + d| ensures (a + b + c + d)[i] == (a + (b + c + d))[i] {
    }
  }

  /** Splitting a ", "-joined list of host pieces gives the list back. */
  lemma SplitJoinedHostnames(xs: seq<string>)
    requires AllHostPieces(xs)
    ensures SplitHostnames(Join(xs, ", ")) == xs
  {
    if |xs| == 0 {
      assert Split("", ',') == [""];
      assert StripAll([""]) == [""];
      assert NonEmpty([""]) == [] by {
        assert [""][..0] == [];
      }
    } else {
      var padded := PadTail(xs);
      JoinCommaSpace(xs);
      SplitJoin(padded, ',');
      StripPadTail(xs);
      NonEmptyOfNonEmpty(xs);
    }
  }

  lemma StripPadTail(xs: seq<string>)
    requires |xs| >= 1 && AllHostPieces(xs)
    ensures StripAll(PadTail(xs)) == xs
  {
    var padded := PadTail(xs);
    var r := StripAll(padded);
    forall i | 0 <= i < |xs| ensures r[i] == xs[i] {
      assert IsHostPiece(xs[i]);
      StripPiece(xs[i]);
      if i == 0 {
        assert padded[i] == xs[i];
      } else {
        assert padded[i] == " " + xs[i];
      }
    }
    assert |r| == |xs|;
  }

  lemma StripPiece(x: string)
    requires IsHostPiece(x)
    ensures Strip(x) == x && Strip(" " + x) == x
  {
    StripFixesStripped(x);
    assert AllSpace(" ");
    StripSpacePrefix(" ", x);
  }

  lemma {:induction false} NonEmptyOfNonEmpty(xs: seq<string>)
    requires forall i :: 0 <= i < |xs| ==> xs[i] != ""
    ensures NonEmpty(xs) == xs
    decreases |xs|
  {
    if |xs| > 0 {
      NonEmptyOfNonEmpty(xs[..|xs| - 1]);
      assert xs[..|xs| - 1] + [xs[|xs| - 1]] == xs;
    }
  }

  /** The hostnames of a normalised value are the distinct hostnames of the
      original, in order of first appearance: none empty, none repeated. */
  lemma SplitNormalized(value: string)
    ensures SplitHostnames(Normalized(value)) == Dedupe(SplitHostnames(value))
    ensures NoDuplicates(SplitHostnames(Normalized(value)))
    ensures forall i :: 0 <= i < |SplitHostnames(Normalized(value))| ==> SplitHostnames(Normalized(value))[i] != ""
  {
    var pieces := SplitHostnames(value);
    var d := Dedupe(pieces);
    assert AllHostPieces(d) by {
      forall i | 0 <= i < |d| ensures IsHostPiece(d[i]) {
        assert d[i] in pieces;
      }
    }
    SplitJoinedHostnames(d);
  }

  /** Normalising twice is normalising once. */
  lemma NormalizedIdempotent(value: string)
    ensures Normalized(Normalized(value)) == Normalized(value)
  {
    SplitNormalized(value);
    DedupeOfDistinct(Dedupe(SplitHostnames(value)));
  }
}
