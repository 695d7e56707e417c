/** Reading Namecheap's XML answer to a dynamic-DNS update: the fields of
    interest are collected into an insertion-ordered dictionary, which then
    decides whether the answer reports an error and is rendered into the
    message stored in the history. The XML parser is a parameter: it yields
    the document's elements in document order, or fails. */
module Namecheap {
  import opened Wrappers
  import opened Text
  import opened Seqs

  /** A Python `dict[str, str]`: key/value pairs in insertion order. */
  type Fields = seq<(string, string)>

  predicate UniqueKeys(f: Fields) {
    forall i, j :: 0 <= i < j < |f| ==> f[i].0 != f[j].0
  }

  /** Position of key `k`, or `|f|` when absent. */
  function KeyIndex(f: Fields, k: string): (i: nat)
    ensures i <= |f|
    ensures forall j :: 0 <= j < i ==> f[j].0 != k
    ensures i < |f| ==> f[i].0 == k
    decreases |f|
  {
    if |f| == 0 then 0 else if f[0].0 == k then 0 else 1 + KeyIndex(f[1..], k)
  }

  /** `k in f`. */
  predicate Has(f: Fields, k: string) {
    KeyIndex(f, k) < |f|
  }

  /** `f.get(k)`. */
  function Get(f: Fields, k: string): (v: Option<string>)
    ensures v.Some? <==> Has(f, k)
  {
    var i := KeyIndex(f, k);
    if i < |f| then Some(f[i].1) else None
  }

  /** Two dictionaries whose key sequences agree on a prefix find a key in
      that prefix at the same position, and a key absent from the prefix
      beyond it. */
  lemma KeyIndexPrefix(f: Fields, g: Fields, k: string)
    requires |f| <= |g| && forall j :: 0 <= j < |f| ==> f[j].0 == g[j].0
    ensures KeyIndex(f, k) < |f| ==> KeyIndex(g, k) == KeyIndex(f, k)
    ensures KeyIndex(f, k) == |f| ==> KeyIndex(g, k) >= |f|
  {
  }

  /** `f[k] = v`: an existing key keeps its position, a new key goes last. */
  function Put(f: Fields, k: string, v: string): (r: Fields)
    ensures Get(r, k) == Some(v)
    ensures forall k' :: k' != k ==> Get(r, k') == Get(f, k')
    ensures |r| == (if Has(f, k) then |f| else |f| + 1)
    ensures forall j :: 0 <= j < |f| ==> r[j].0 == f[j].0
    ensures UniqueKeys(f) ==> UniqueKeys(r)
  {
    var i := KeyIndex(f, k);
    if i < |f| then
      var r := f[i := (k, v)];
      forall k' ensures KeyIndex(r, k') == KeyIndex(f, k') {
        KeyIndexPrefix(f, r, k');
      }
      r
    else
      var r := f + [(k, v)];
      forall k' ensures KeyIndex(r, k') == (if KeyIndex(f, k') < |f| then KeyIndex(f, k') else if k' == k then |f| else |f| + 1) {
        KeyIndexPrefix(f, r, k');
        assert r[|f|].0 == k;
      }
      r
  }

  /** One element as the parser yields it: qualified tag, text (when the
      element has any) and attributes. */
  datatype Element = Element(tag: string, text: Option<string>, attrib: map<string, string>)

  /** `_strip_xml_tag`: everything after the first `}` (the local name of a
      `{namespace}name` tag), or the whole tag when it has none. */
  function StripXmlTag(tag: string): (r: string)
    ensures '}' !in tag ==> r == tag
    ensures '}' in tag ==> exists k :: 0 <= k < |tag| && '}' !in tag[..k] && tag[k] == '}' && r == tag[k + 1..]
  {
    var k := IndexOf(tag, '}');
    if k == |tag| then tag
    else
      assert '}' !in tag[..k];
      tag[k + 1..]
  }

  /** A namespaced tag loses exactly its namespace. */
  lemma StripNamespace(ns: string, local: string)
    requires '}' !in ns
    ensures StripXmlTag("{" + ns + "}" + local) == local
  {
    var tag := "{" + ns + "}" + local;
    var k := IndexOf(tag, '}');
    assert tag[1 + |ns|] == '}';
    assert forall j :: 0 <= j < 1 + |ns| ==> tag[j] != '}' by {
      forall j | 0 <= j < 1 + |ns| ensures tag[j] != '}' {
        if j > 0 {
          assert tag[j] == ns[j - 1];
        }
      }
    }
    assert k == 1 + |ns|;
    assert tag[k + 1..] == local;
  }

  /** `tag.startswith("Err") and tag[3:].isdigit()` (ASCII digits). */
  predicate IsNumberedErr(tag: string) {
    |tag| > 3 && tag[..3] == "Err" && IsDigits(tag[3..])
  }

  /** What an element's text contributes: the key it sets, the stripped text,
      and whether it only fills an absent key (an `Error` element standing in
      for `Err1`). Elements with blank text contribute nothing. */
  function TextSource(e: Element): Option<(string, string, bool)> {
    var tag := StripXmlTag(e.tag);
    var text := Strip(if e.text.Some? then e.text.value else "");
    if text == "" then None
    else if tag == "ErrCount" || tag == "IsSuccess" || IsNumberedErr(tag) then Some((tag, text, false))
    else if tag == "Error" then Some(("Err1", text, true))
    else None
  }

  /** Sets `k` to `v`; when `onlyIfAbsent`, only if `k` is not there yet. */
  function Offer(f: Fields, k: string, v: string, onlyIfAbsent: bool): (r: Fields)
    ensures Get(r, k) == (if onlyIfAbsent && Has(f, k) then Get(f, k) else Some(v))
    ensures forall k' :: k' != k ==> Get(r, k') == Get(f, k')
    ensures UniqueKeys(f) ==> UniqueKeys(r)
  {
    if onlyIfAbsent && Has(f, k) then f else Put(f, k, v)
  }

  /** An attribute named `k` fills the field `k` when it is absent. */
  function AttrOffer(f: Fields, e: Element, k: string): (r: Fields)
    ensures Get(r, k) == (if k in e.attrib && !Has(f, k) then Some(e.attrib[k]) else Get(f, k))
    ensures forall k' :: k' != k ==> Get(r, k') == Get(f, k')
    ensures UniqueKeys(f) ==> UniqueKeys(r)
  {
    if k in e.attrib then Offer(f, k, e.attrib[k], true) else f
  }

  /** The `if`/`elif` chain on the element's tag and text. */
  function TextStep(f: Fields, src: Option<(string, string, bool)>): (r: Fields)
    ensures UniqueKeys(f) ==> UniqueKeys(r)
  {
    match src
    case None => f
    case Some(s) => Offer(f, s.0, s.1, s.2)
  }

  /** The body of the loop over `root.iter()` for one element: its text,
      then its `IsSuccess` attribute, then its `ErrCount` attribute. */
  function ScanElement(f: Fields, e: Element): (r: Fields)
    ensures UniqueKeys(f) ==> UniqueKeys(r)
  {
    AttrOffer(AttrOffer(TextStep(f, TextSource(e)), e, "IsSuccess"), e, "ErrCount")
  }

  /** The loop over all elements, in document order. */
  function ScanAll(es: seq<Element>): (r: Fields)
    ensures UniqueKeys(r)
    decreases |es|
  {
    if |es| == 0 then [] else ScanElement(ScanAll(es[..|es| - 1]), es[|es| - 1])
  }

  /** `_parse_namecheap_fields`: no fields for an empty body, a body without
      `<`, or one the parser rejects; otherwise the fields collected from its
      elements. */
  function ParseFields(body: string, parseXml: string -> Option<seq<Element>>): (r: Fields)
    ensures body == "" || '<' !in body || parseXml(body).None? ==> r == []
    ensures UniqueKeys(r)
  {
    if body == "" || '<' !in body then []
    else
      match parseXml(body)
      case None => []
      case Some(es) => ScanAll(es)
  }

  // An independent account of the field values: for every key, the last
  // element that sets it unconditionally wins; failing that, the first
  // element that offers a value for it while it is absent.

  /** The value a text source writes to `k` whatever is there already. */
  function UnconditionalOf(src: Option<(string, string, bool)>, k: string): Option<string> {
    if src.Some? && src.value.0 == k && !src.value.2 then Some(src.value.1) else None
  }

  /** The value a text source offers for `k` only while `k` is absent. */
  function ConditionalOf(src: Option<(string, string, bool)>, k: string): Option<string> {
    if src.Some? && src.value.0 == k && src.value.2 then Some(src.value.1) else None
  }

  /** The value `e` writes to `k` whatever is there already. */
  function Unconditional(e: Element, k: string): Option<string> {
    UnconditionalOf(TextSource(e), k)
  }

  /** The value `e` offers for `k` only while `k` is absent: the text of an
      `Error` element for `Err1`, or an `IsSuccess`/`ErrCount` attribute. */
  function Conditional(e: Element, k: string): Option<string> {
    if ConditionalOf(TextSource(e), k).Some? then ConditionalOf(TextSource(e), k)
    else if (k == "IsSuccess" || k == "ErrCount") && k in e.attrib then Some(e.attrib[k])
    else None
  }

  /** Only `Err1` is ever offered conditionally by an element's text. */
  lemma TextSourceConditional(e: Element)
    ensures TextSource(e).Some? && TextSource(e).value.2 ==> TextSource(e).value.0 == "Err1"
  {
  }

  function LastUnconditional(es: seq<Element>, k: string): Option<string>
    decreases |es|
  {
    if |es| == 0 then None
    else if Unconditional(es[|es| - 1], k).Some? then Unconditional(es[|es| - 1], k)
    else LastUnconditional(es[..|es| - 1], k)
  }

  function FirstConditional(es: seq<Element>, k: string): Option<string>
    decreases |es|
  {
    if |es| == 0 then None
    else if FirstConditional(es[..|es| - 1], k).Some? then FirstConditional(es[..|es| - 1], k)
    else Conditional(es[|es| - 1], k)
  }

  /** The value every key is expected to end up with. */
  function Expected(es: seq<Element>, k: string): Option<string> {
    if LastUnconditional(es, k).Some? then LastUnconditional(es, k) else FirstConditional(es, k)
  }

  lemma TextStepGet(f: Fields, src: Option<(string, string, bool)>, k: string)
    ensures Get(TextStep(f, src), k) ==
      if UnconditionalOf(src, k).Some? then UnconditionalOf(src, k)
      else if Has(f, k) then Get(f, k)
      else if ConditionalOf(src, k).Some? then ConditionalOf(src, k)
      else None
  {
  }

  /** One element changes a key as the reference account says. */
  lemma ScanElementGet(f: Fields, e: Element, k: string)
    ensures Get(ScanElement(f, e), k) ==
      if Unconditional(e, k).Some? then Unconditional(e, k)
      else if Has(f, k) then Get(f, k)
      else Conditional(e, k)
  {
    var src := TextSource(e);
    TextSourceConditional(e);
    var f1 := TextStep(f, src);
    TextStepGet(f, src, k);
    var f2 := AttrOffer(f1, e, "IsSuccess");
    if k == "ErrCount" {
      assert ConditionalOf(src, k).None?;
      assert Get(f2, k) == Get(f1, k);
    } else if k == "IsSuccess" {
      assert ConditionalOf(src, k).None?;
    } else {
      assert Get(f2, k) == Get(f1, k);
    }
  }

  /** The collected fields are exactly the reference values: an element's text
      overwrites, while an `Error` element (for `Err1`) and the `IsSuccess`
      and `ErrCount` attributes only fill a field that is still absent. */
  lemma {:induction false} ScanAllMatchesExpected(es: seq<Element>, k: string)
    ensures Get(ScanAll(es), k) == Expected(es, k)
    decreases |es|
  {
    if |es| > 0 {
      var init := es[..|es| - 1];
      ScanAllMatchesExpected(init, k);
      ScanElementGet(ScanAll(init), es[|es| - 1], k);
    }
  }

  /** `int(s) > 0`, where a `ValueError` counts as "no". */
  predicate PositiveCount(s: string) {
    match ParseInt(s)
    case Some(n) => n > 0
    case None => false
  }

  /** The `IsSuccess` text, trimmed and lower-cased, is a negative answer. */
  predicate NegativeFlag(s: string) {
    Lower(Strip(s)) in {"false", "0", "no"}
  }

  /** `_is_namecheap_error`. */
  function IsNamecheapError(f: Fields): (r: bool)
    // An error is exactly a count that `int` reads as positive or a
    // false-like success flag; either one alone suffices.
    ensures r <==>
      || (Has(f, "ErrCount") && ParseInt(Get(f, "ErrCount").value).Some? && ParseInt(Get(f, "ErrCount").value).value > 0)
      || (Has(f, "IsSuccess") && NegativeFlag(Get(f, "IsSuccess").value))
    ensures forall n :: n > 0 && Has(f, "ErrCount") && ParseInt(Get(f, "ErrCount").value) == Some(n) ==> r
    ensures forall v :: Get(f, "IsSuccess") == Some(v) && NegativeFlag(v) ==> r
  {
    var errCount := Get(f, "ErrCount");
    var isSuccess := Get(f, "IsSuccess");
    ParseIntRejectsBlank("");
    || (errCount.Some? && errCount.value != "" && PositiveCount(errCount.value))
    || (isSuccess.Some? && isSuccess.value != "" && NegativeFlag(isSuccess.value))
  }

  /** A numeric error count alone decides: the answer is an error exactly when
      the count is positive. */
  lemma ErrorCountDecides(f: Fields, n: int)
    requires Get(f, "ErrCount") == Some(IntToString(n)) && !Has(f, "IsSuccess")
    ensures IsNamecheapError(f) <==> n > 0
  {
    ParseIntOfIntToString(n);
    assert IntToString(n) != "" by {
      var m: nat := if n < 0 then -n else n;
      assert |NatToString(m)| > 0;
    }
  }

  /** An error count that is not an integer is ignored: only the success
      flag is consulted. */
  lemma NonNumericCountIgnored(f: Fields)
    requires Has(f, "ErrCount") && ParseInt(Get(f, "ErrCount").value).None?
    ensures IsNamecheapError(f) <==> Has(f, "IsSuccess") && Get(f, "IsSuccess").value != "" && NegativeFlag(Get(f, "IsSuccess").value)
  {
  }

  /** A success flag that is not false-like, with no count or one that is
      not positive (such as the usual `ErrCount` 0 and `IsSuccess` true), is
      not an error. */
  lemma SuccessIsNotError(f: Fields)
    requires Has(f, "IsSuccess") && !NegativeFlag(Get(f, "IsSuccess").value)
    requires !Has(f, "ErrCount") || !PositiveCount(Get(f, "ErrCount").value)
    ensures !IsNamecheapError(f)
  {
  }

  /** Without either field the answer is never an error. */
  lemma NoFieldsNoError(f: Fields)
    requires !Has(f, "ErrCount") && !Has(f, "IsSuccess")
    ensures !IsNamecheapError(f)
  {
  }

  predicate IsPriority(k: string) {
    k == "ErrCount" || k == "IsSuccess" || k == "Err1"
  }

  /** The entry for `k`, if any. */
  function EntryOf(f: Fields, k: string): (r: Fields)
    ensures Has(f, k) ==> r == [(k, Get(f, k).value)]
    ensures !Has(f, k) ==> r == []
  {
    if Has(f, k) then [(k, Get(f, k).value)] else []
  }

  /** The entries with key `k`, in order. */
  function WithKey(f: Fields, k: string): (r: Fields)
    ensures forall i :: 0 <= i < |r| ==> r[i].0 == k
    decreases |f|
  {
    if |f| == 0 then [] else (if f[0].0 == k then [f[0]] else []) + WithKey(f[1..], k)
  }

  /** The entries with any other key, in order. */
  function WithoutKey(f: Fields, k: string): (r: Fields)
    ensures forall i :: 0 <= i < |r| ==> r[i].0 != k && r[i] in f
    decreases |f|
  {
    if |f| == 0 then [] else (if f[0].0 == k then [] else [f[0]]) + WithoutKey(f[1..], k)
  }

  /** The entries whose key is not one of the three named first, in
      insertion order. */
  function OtherPairs(f: Fields): (r: Fields)
    ensures forall i :: 0 <= i < |r| ==> !IsPriority(r[i].0) && r[i] in f
  {
    WithoutKey(WithoutKey(WithoutKey(f, "ErrCount"), "IsSuccess"), "Err1")
  }

  /** The entries of the detail: `ErrCount`, `IsSuccess`, `Err1` (those
      present), then every other entry in insertion order. */
  function OrderedPairs(f: Fields): Fields {
    EntryOf(f, "ErrCount") + EntryOf(f, "IsSuccess") + EntryOf(f, "Err1") + OtherPairs(f)
  }

  /** With unique keys, the entries with key `k` are its one entry or none. */
  lemma {:induction false} WithKeyUnique(f: Fields, k: string)
    requires UniqueKeys(f)
    ensures WithKey(f, k) == EntryOf(f, k)
    decreases |f|
  {
    if |f| > 0 {
      var tail := f[1..];
      assert UniqueKeys(tail) by {
        forall i, j | 0 <= i < j < |tail| ensures tail[i].0 != tail[j].0 {
          assert tail[i] == f[i + 1] && tail[j] == f[j + 1];
        }
      }
      WithKeyUnique(tail, k);
      if f[0].0 == k {
        assert !Has(tail, k) by {
          assert forall j :: 0 <= j < |tail| ==> tail[j] == f[j + 1];
        }
        assert WithKey(tail, k) == [];
        assert KeyIndex(f, k) == 0;
      } else {
        assert KeyIndex(f, k) == 1 + KeyIndex(tail, k);
        assert Get(f, k) == Get(tail, k);
      }
    }
  }

  /** Every entry has key `k` or not. */
  lemma {:induction false} PartitionByKey(f: Fields, k: string)
    ensures multiset(f) == multiset(WithKey(f, k)) + multiset(WithoutKey(f, k))
    decreases |f|
  {
    if |f| > 0 {
      var tail := f[1..];
      PartitionByKey(tail, k);
      ConsSplit(f);
      assert multiset(f) == multiset([f[0]]) + multiset(tail);
      if f[0].0 == k {
        assert WithKey(f, k) == [f[0]] + WithKey(tail, k);
        assert WithoutKey(f, k) == WithoutKey(tail, k);
      } else {
        assert WithKey(f, k) == WithKey(tail, k);
        assert WithoutKey(f, k) == [f[0]] + WithoutKey(tail, k);
      }
    }
  }

  /** Removing the entries of one key keeps those of another. */
  lemma {:induction false} WithKeyWithout(f: Fields, k: string, other: string)
    requires k != other
    ensures WithKey(WithoutKey(f, other), k) == WithKey(f, k)
    decreases |f|
  {
    if |f| > 0 {
      WithKeyWithout(f[1..], k, other);
      var head := if f[0].0 == other then [] else [f[0]];
      assert WithoutKey(f, other) == head + WithoutKey(f[1..], other);
      WithKeyAppend(head, WithoutKey(f[1..], other), k);
    }
  }

  lemma {:induction false} WithKeyAppend(a: Fields, b: Fields, k: string)
    ensures WithKey(a + b, k) == WithKey(a, k) + WithKey(b, k)
    decreases |a|
  {
    if |a| == 0 {
      assert a + b == b;
    } else {
      assert (a + b)[1..] == a[1..] + b;
      WithKeyAppend(a[1..], b, k);
    }
  }

  /** The detail lists every field exactly once: its entries are a
      permutation of the dictionary's. */
  lemma OrderedPairsPermutes(f: Fields)
    requires UniqueKeys(f)
    ensures multiset(OrderedPairs(f)) == multiset(f)
    ensures |OrderedPairs(f)| == |f|
  {
    var w1 := WithoutKey(f, "ErrCount");
    var w2 := WithoutKey(w1, "IsSuccess");
    var a, b, c := EntryOf(f, "ErrCount"), EntryOf(f, "IsSuccess"), EntryOf(f, "Err1");
    var rest := OtherPairs(f);
    assert OrderedPairs(f) == a + b + c + rest;
    calc {
      multiset(f);
      { PartitionByKey(f, "ErrCount"); }
      multiset(WithKey(f, "ErrCount")) + multiset(w1);
      { PartitionByKey(w1, "IsSuccess"); }
      multiset(WithKey(f, "ErrCount")) + multiset(WithKey(w1, "IsSuccess")) + multiset(w2);
      { PartitionByKey(w2, "Err1"); }
      multiset(WithKey(f, "ErrCount")) + multiset(WithKey(w1, "IsSuccess")) + multiset(WithKey(w2, "Err1")) + multiset(rest);
      { WithKeyWithout(f, "IsSuccess", "ErrCount");
        WithKeyWithout(f, "Err1", "ErrCount");
        WithKeyWithout(w1, "Err1", "IsSuccess"); }
      multiset(WithKey(f, "ErrCount")) + multiset(WithKey(f, "IsSuccess")) + multiset(WithKey(f, "Err1")) + multiset(rest);
      { WithKeyUnique(f, "ErrCount");
        WithKeyUnique(f, "IsSuccess");
        WithKeyUnique(f, "Err1"); }
      multiset(a) + multiset(b) + multiset(c) + multiset(rest);
      multiset(a + b + c + rest);
    }
    assert |multiset(OrderedPairs(f))| == |multiset(f)|;
  }

  /** The detail of a non-empty dictionary is non-empty. */
  lemma OrderedPairsNonEmpty(f: Fields)
    ensures |f| > 0 ==> |OrderedPairs(f)| > 0
  {
    if |f| == 0 {
    } else if !IsPriority(f[0].0) {
      assert OtherPairs(f)[0] == f[0];
    } else if f[0].0 == "ErrCount" {
      assert KeyIndex(f, "ErrCount") == 0;
    } else if f[0].0 == "IsSuccess" {
      assert KeyIndex(f, "IsSuccess") == 0;
    } else {
      assert KeyIndex(f, "Err1") == 0;
    }
  }

  function RenderPair(p: (string, string)): string {
    p.0 + "=" + p.1
  }

  /** The parts of the detail: `HTTP <code>` when there is a code, then the
      ordered fields as `key=value`. */
  function DetailParts(code: Option<int>, f: Fields): (parts: seq<string>)
    ensures |parts| == (if code.Some? then 1 else 0) + |OrderedPairs(f)|
  {
    var ordered := OrderedPairs(f);
    (if code.Some? then ["HTTP " + IntToString(code.value)] else [])
      + seq(|ordered|, i requires 0 <= i < |ordered| => RenderPair(ordered[i]))
  }

  /** `_format_namecheap_message`: the stripped body followed by the detail in
      parentheses; the detail alone for a blank body; the stripped body alone
      when there is no detail. */
  function FormatMessage(body: string, code: Option<int>, f: Fields): (r: string)
    ensures code.None? && f == [] ==> r == Strip(body)
    ensures (code.Some? || f != []) && Strip(body) == "" ==> r == Join(DetailParts(code, f), " | ")
    ensures (code.Some? || f != []) && Strip(body) != "" ==> r == Strip(body) + " (" + Join(DetailParts(code, f), " | ") + ")"
  {
    OrderedPairsNonEmpty(f);
    var parts := DetailParts(code, f);
    var base := Strip(body);
    if |parts| > 0 then
      var detail := Join(parts, " | ");
      if base != "" then base + " (" + detail + ")" else detail
    else base
  }
}
