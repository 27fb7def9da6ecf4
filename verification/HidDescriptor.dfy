/** The report descriptor classifier, in Rust and in Kotlin, over the short items of section 6.2.2.2 of HID 1.11. */
module HidDescriptors {
  import opened Bytes

  datatype Kind = Mouse | Keyboard | Gamepad | Other

  const USAGE_PAGE: byte := 0x04
  const USAGE: byte := 0x08
  const GENERIC_DESKTOP := 1

  // Short items

  /** A short item: tag and type bits, data size, and the data read little-endian. */
  datatype Item = Item(tag: byte, size: nat, data: nat)

  function DataSize(prefix: byte): (n: nat)
    ensures n <= 4
  {
    match prefix % 4
    case 0 => 0
    case 1 => 1
    case 2 => 2
    case _ => 4
  }

  /** The prefix without its size bits. */
  function TagOf(prefix: byte): byte
  {
    prefix - prefix % 4
  }

  function FromLe(b: bytes): nat {
    if b == [] then 0 else b[0] + 0x100 * FromLe(b[1..])
  }

  /** The items of a descriptor up to the first one that is cut off. */
  function Items(desc: bytes): seq<Item> {
    if desc == [] || 1 + DataSize(desc[0]) > |desc| then []
    else
      var n := DataSize(desc[0]);
      [Item(TagOf(desc[0]), n, FromLe(desc[1..1 + n]))] + Items(desc[1 + n..])
  }

  // Their encoding

  predicate WellFormed(it: Item) {
    && it.tag % 4 == 0
    && match it.size
       case 0 => it.data == 0
       case 1 => it.data < 0x100
       case 2 => it.data < 0x1_0000
       case 4 => it.data < TWO32
       case _ => false
  }

  function ToLe(v: nat, n: nat): (b: bytes)
    ensures |b| == n
  {
    if n == 0 then [] else [v % 0x100] + ToLe(v / 0x100, n - 1)
  }

  function SizeBits(n: nat): byte {
    if n == 4 then 3 else if n < 3 then n else 0
  }

  function EncodeItem(it: Item): bytes
    requires WellFormed(it)
  {
    [it.tag + SizeBits(it.size)] + ToLe(it.data, it.size)
  }

  function EncodeItems(items: seq<Item>): bytes
    requires forall it | it in items :: WellFormed(it)
  {
    if items == [] then [] else EncodeItem(items[0]) + EncodeItems(items[1..])
  }

  /** n little-endian bytes hold exactly the numbers below 256^n. */
  function Pow256(n: nat): nat {
    if n == 0 then 1 else 0x100 * Pow256(n - 1)
  }

  lemma {:induction false} LeRoundTrip(v: nat, n: nat)
    requires v < Pow256(n)
    ensures FromLe(ToLe(v, n)) == v
  {
    if n > 0 {
      assert v / 0x100 < Pow256(n - 1);
      LeRoundTrip(v / 0x100, n - 1);
      assert ToLe(v, n)[1..] == ToLe(v / 0x100, n - 1);
    }
  }

  lemma {:induction false} LeCanonical(b: bytes)
    ensures ToLe(FromLe(b), |b|) == b && FromLe(b) < Pow256(|b|)
  {
    if b != [] {
      LeCanonical(b[1..]);
      var rest := FromLe(b[1..]);
      assert (b[0] + 0x100 * rest) / 0x100 == rest && (b[0] + 0x100 * rest) % 0x100 == b[0];
      assert b == [b[0]] + b[1..];
    }
  }

  lemma Powers()
    ensures Pow256(0) == 1 && Pow256(1) == 0x100 && Pow256(2) == 0x1_0000 && Pow256(4) == TWO32
  {
    assert Pow256(3) == 0x100 * Pow256(2);
    assert Pow256(2) == 0x100 * Pow256(1);
  }

  lemma ItemRoundTrip(it: Item, t: bytes)
    requires WellFormed(it)
    ensures Items(EncodeItem(it) + t) == [it] + Items(t)
  {
    hide FromLe, ToLe, Pow256;
    Powers();
    LeRoundTrip(it.data, it.size);
    var e := EncodeItem(it) + t;
    assert e[0] == it.tag + SizeBits(it.size);
    assert DataSize(e[0]) == it.size;
    assert e[1..1 + it.size] == ToLe(it.data, it.size);
    assert e[1 + it.size..] == t;
  }

  /** Every list of well-formed items is recovered from its encoding. */
  lemma {:induction false} ItemsRoundTrip(items: seq<Item>)
    requires forall it | it in items :: WellFormed(it)
    ensures Items(EncodeItems(items)) == items
  {
    hide EncodeItem;
    if items != [] {
      ItemRoundTrip(items[0], EncodeItems(items[1..]));
      ItemsRoundTrip(items[1..]);
    }
  }

  lemma PrefixBits(prefix: byte)
    ensures TagOf(prefix) % 4 == 0 && TagOf(prefix) + SizeBits(DataSize(prefix)) == prefix
  {
  }

  lemma ItemOf(prefix: byte, data: bytes)
    requires |data| == DataSize(prefix)
    ensures var it := Item(TagOf(prefix), |data|, FromLe(data));
            WellFormed(it) && EncodeItem(it) == [prefix] + data
  {
    hide FromLe, ToLe, Pow256, SizeBits, TagOf;
    PrefixBits(prefix);
    Powers();
    LeCanonical(data);
  }

  lemma ItemsStep(desc: bytes)
    requires desc != [] && 1 + DataSize(desc[0]) <= |desc|
    ensures var n := DataSize(desc[0]);
            Items(desc) == [Item(TagOf(desc[0]), n, FromLe(desc[1..1 + n]))] + Items(desc[1 + n..])
  {
    hide FromLe, DataSize, TagOf;
  }

  lemma FirstItem(desc: bytes)
    requires desc != [] && 1 + DataSize(desc[0]) <= |desc|
    ensures var n := DataSize(desc[0]);
            && Items(desc) != [] && Items(desc)[1..] == Items(desc[1 + n..])
            && WellFormed(Items(desc)[0]) && EncodeItem(Items(desc)[0]) == desc[..1 + n]
  {
    hide Items, FromLe, WellFormed, EncodeItem, DataSize, TagOf;
    var n := DataSize(desc[0]);
    var it, rest := Item(TagOf(desc[0]), n, FromLe(desc[1..1 + n])), Items(desc[1 + n..]);
    assert Items(desc) == [it] + rest by { ItemsStep(desc); }
    ItemOf(desc[0], desc[1..1 + n]);
    assert desc[..1 + n] == [desc[0]] + desc[1..1 + n];
  }

  /** The items found are well-formed, encode to a prefix of the descriptor, and what is left is cut off. */
  lemma {:induction false} ItemsCanonical(desc: bytes)
    ensures forall it | it in Items(desc) :: WellFormed(it)
    ensures var e := EncodeItems(Items(desc));
            e <= desc && (e == desc || 1 + DataSize(desc[|e|]) > |desc| - |e|)
  {
    hide EncodeItem, WellFormed, FromLe, TagOf;
    if desc != [] && 1 + DataSize(desc[0]) <= |desc| {
      hide DataSize, Items;
      var n := DataSize(desc[0]);
      var head, rest := desc[..1 + n], desc[1 + n..];
      FirstItem(desc);
      ItemsCanonical(rest);
      assert desc == head + rest;
      assert EncodeItems(Items(desc)) == head + EncodeItems(Items(rest));
    }
  }

  /** Appending bytes only adds items. */
  lemma {:induction false} ItemsPrefix(desc: bytes, t: bytes)
    ensures Items(desc) <= Items(desc + t)
  {
    hide FromLe, TagOf, DataSize;
    if desc != [] && 1 + DataSize(desc[0]) <= |desc| {
      var n := DataSize(desc[0]);
      ItemsPrefix(desc[1 + n..], t);
      assert (desc + t)[1 + n..] == desc[1 + n..] + t;
      assert (desc + t)[1..1 + n] == desc[1..1 + n];
    }
  }

  // Classification

  datatype Language = Rust | Kotlin

  /** Rust keeps the low byte of an item's data; Kotlin keeps it whole, as a signed `Int`. */
  function Seen(lang: Language, data: nat): int {
    if lang.Rust? then data % 0x100 else if data < TWO32 then ToI32(data) else data
  }

  function KindOf(usage: int): Kind {
    match usage
    case 2 => Mouse
    case 6 => Keyboard
    case 4 => Gamepad
    case 5 => Gamepad
    case _ => Other
  }

  /** The usage page in force before item `k`: that of the nearest Usage Page item. */
  function PageBefore(lang: Language, items: seq<Item>, k: nat): Option<int>
    requires k <= |items|
  {
    if k == 0 then None
    else if items[k - 1].tag == USAGE_PAGE then Some(Seen(lang, items[k - 1].data))
    else PageBefore(lang, items, k - 1)
  }

  /** Item `k` is a Usage on the Generic Desktop page. */
  predicate Decides(lang: Language, items: seq<Item>, k: nat)
    requires k < |items|
  {
    items[k].tag == USAGE && PageBefore(lang, items, k) == Some(GENERIC_DESKTOP)
  }

  function FirstDecision(lang: Language, items: seq<Item>, k: nat): (r: Option<nat>)
    requires k <= |items|
    ensures r.Some? ==> k <= r.value < |items| && Decides(lang, items, r.value)
    ensures forall j | k <= j < (if r.Some? then r.value else |items|) :: !Decides(lang, items, j)
    decreases |items| - k
  {
    if k == |items| then None
    else if Decides(lang, items, k) then Some(k)
    else FirstDecision(lang, items, k + 1)
  }

  function Classify(lang: Language, desc: bytes): Kind {
    var items := Items(desc);
    match FirstDecision(lang, items, 0)
    case None => Other
    case Some(k) => KindOf(Seen(lang, items[k].data))
  }

  lemma {:induction false} DecisionFrom(lang: Language, items: seq<Item>, k: nat)
    requires k <= |items| && forall j | 0 <= j < k :: !Decides(lang, items, j)
    ensures FirstDecision(lang, items, 0) == FirstDecision(lang, items, k)
  {
    if k > 0 {
      DecisionFrom(lang, items, k - 1);
    }
  }

  /** The item at offset `i`, or the end of the items. */
  lemma ItemAt(desc: bytes, items: seq<Item>, i: nat, k: nat)
    requires i < |desc| && k <= |items| && Items(desc[i..]) == items[k..]
    ensures var n := DataSize(desc[i]);
            if i + 1 + n > |desc| then k == |items|
            else k < |items| && items[k] == Item(TagOf(desc[i]), n, FromLe(desc[i + 1..i + 1 + n]))
                 && Items(desc[i + 1 + n..]) == items[k + 1..]
  {
    hide FromLe;
    var d, n := desc[i..], DataSize(desc[i]);
    if i + 1 + n <= |desc| {
      assert d[1..1 + n] == desc[i + 1..i + 1 + n] && d[1 + n..] == desc[i + 1 + n..];
      assert items[k..][1..] == items[k + 1..];
      assert items[k] == items[k..][0];
    }
  }

  lemma LeCases(b: bytes)
    requires |b| <= 4
    ensures FromLe(b) < TWO32
    ensures |b| == 0 ==> FromLe(b) == 0
    ensures |b| == 1 ==> FromLe(b) == b[0]
    ensures |b| == 2 ==> FromLe(b) == FromBe16(b[1], b[0])
    ensures |b| == 4 ==> FromLe(b) == FromBe32(b[3], b[2], b[1], b[0])
  {
    if b != [] {
      LeCases(b[1..]);
      if |b| == 4 {
        assert FromLe(b[1..]) == b[1] + 0x100 * FromLe(b[2..]) by { assert b[1..][1..] == b[2..]; }
        LeCases(b[2..]);
      } else if |b| == 3 {
        assert b[1..][1..] == b[2..];
        LeCases(b[2..]);
      }
    }
  }

  /** `hid_descriptor::classify`. */
  method ClassifyRust(desc: bytes) returns (kind: Kind)
    ensures kind == Classify(Rust, desc)
  {
    hide FromLe, FromBe16, FromBe32, Items, PageBefore, TagOf;
    ghost var items, k := Items(desc), 0;
    var page: Option<byte> := None;
    var i := 0;
    assert desc[0..] == desc && items[0..] == items && PageBefore(Rust, items, 0) == None by { Begin(Rust, desc); }
    while i < |desc|
      invariant 0 <= i <= |desc| && k <= |items| && Items(desc[i..]) == items[k..]
      invariant page == PageBefore(Rust, items, k)
      invariant forall j | 0 <= j < k :: !Decides(Rust, items, j)
    {
      ItemAt(desc, items, i, k);
      var prefix := desc[i];
      var size := match prefix % 4 case 0 => 0 case 1 => 1 case 2 => 2 case _ => 4;
      var tag := TagOf(prefix);
      if i + 1 + size > |desc| {
        break;
      }
      LeCases(desc[i + 1..i + 1 + size]);
      var data: u32 :=
        match size
        case 0 => 0
        case 1 => desc[i + 1]
        case 2 => FromBe16(desc[i + 2], desc[i + 1])
        case _ => FromBe32(desc[i + 4], desc[i + 3], desc[i + 2], desc[i + 1]);
      assert data == items[k].data;
      PageStep(Rust, items, k);
      if tag == 0x04 {
        page := Some(data % 0x100);
      } else if tag == 0x08 {
        if page == Some(1) {
          DecisionFrom(Rust, items, k);
          var usage := data % 0x100;
          return (match usage case 2 => Mouse case 6 => Keyboard case 5 => Gamepad case 4 => Gamepad case _ => Other);
        }
      }
      i, k := i + 1 + size, k + 1;
    }
    AtEnd(desc, items, i, k);
    DecisionFrom(Rust, items, k);
    return Other;
  }

  /** `classifyDescriptor`, with its 4-byte data assembled into a signed `Int`. */
  method ClassifyKotlin(desc: bytes) returns (kind: Kind)
    ensures kind == Classify(Kotlin, desc)
  {
    hide FromLe, FromBe16, FromBe32, Items, PageBefore, TagOf;
    ghost var items, k := Items(desc), 0;
    var page: Option<i32> := None;
    var i := 0;
    assert desc[0..] == desc && items[0..] == items && PageBefore(Kotlin, items, 0) == None by { Begin(Kotlin, desc); }
    while i < |desc|
      invariant 0 <= i <= |desc| && k <= |items| && Items(desc[i..]) == items[k..]
      invariant page == PageBefore(Kotlin, items, k)
      invariant forall j | 0 <= j < k :: !Decides(Kotlin, items, j)
    {
      ItemAt(desc, items, i, k);
      var prefix := desc[i];
      var size := match prefix % 4 case 0 => 0 case 1 => 1 case 2 => 2 case _ => 4;
      var tag := TagOf(prefix);
      if i + 1 + size > |desc| {
        break;
      }
      LeCases(desc[i + 1..i + 1 + size]);
      var data: i32 :=
        match size
        case 0 => 0
        case 1 => desc[i + 1]
        case 2 => FromBe16(desc[i + 2], desc[i + 1])
        case _ => Int4Le(desc, i + 1);
      assert data == ToI32(items[k].data);
      PageStep(Kotlin, items, k);
      if tag == 0x04 {
        page := Some(data);
      } else if tag == 0x08 {
        if page == Some(1) {
          DecisionFrom(Kotlin, items, k);
          return (match data case 2 => Mouse case 6 => Keyboard case 4 => Gamepad case 5 => Gamepad case _ => Other);
        }
      }
      i, k := i + 1 + size, k + 1;
    }
    AtEnd(desc, items, i, k);
    DecisionFrom(Kotlin, items, k);
    return Other;
  }

  /** `ByteBuffer4Le`. */
  function Int4Le(b: bytes, off: nat): i32
    requires off + 4 <= |b|
  {
    ToI32(FromBe32(b[off + 3], b[off + 2], b[off + 1], b[off]))
  }

  lemma Begin(lang: Language, desc: bytes)
    ensures desc[0..] == desc && Items(desc)[0..] == Items(desc) && PageBefore(lang, Items(desc), 0) == None
  {
  }

  lemma PageStep(lang: Language, items: seq<Item>, k: nat)
    requires k < |items|
    ensures PageBefore(lang, items, k + 1) ==
            if items[k].tag == USAGE_PAGE then Some(Seen(lang, items[k].data)) else PageBefore(lang, items, k)
  {
  }

  lemma AtEnd(desc: bytes, items: seq<Item>, i: nat, k: nat)
    requires i <= |desc| && k <= |items| && Items(desc[i..]) == items[k..]
    requires i == |desc| || i + 1 + DataSize(desc[i]) > |desc|
    ensures k == |items|
  {
    hide FromLe;
    assert i < |desc| ==> desc[i..][0] == desc[i];
    assert |items[k..]| == 0;
  }

  // What appended bytes and the choice of language change

  lemma {:induction false} PagePrefix(lang: Language, a: seq<Item>, b: seq<Item>, k: nat)
    requires k <= |a| && a <= b
    ensures PageBefore(lang, a, k) == PageBefore(lang, b, k)
  {
    if k > 0 {
      PagePrefix(lang, a, b, k - 1);
    }
  }

  lemma {:induction false} DecisionPrefix(lang: Language, a: seq<Item>, b: seq<Item>, k: nat)
    requires k <= |a| && a <= b && FirstDecision(lang, a, k).Some?
    ensures FirstDecision(lang, b, k) == FirstDecision(lang, a, k)
    decreases |a| - k
  {
    PagePrefix(lang, a, b, k);
    if !Decides(lang, a, k) {
      DecisionPrefix(lang, a, b, k + 1);
    }
  }

  /** A decision already made survives any appended bytes. */
  lemma EarlyDecisionSurvives(lang: Language, desc: bytes, t: bytes)
    requires FirstDecision(lang, Items(desc), 0).Some?
    ensures Classify(lang, desc + t) == Classify(lang, desc)
  {
    hide Items;
    ItemsPrefix(desc, t);
    DecisionPrefix(lang, Items(desc), Items(desc + t), 0);
  }

  /** What Kotlin takes for the Generic Desktop page, Rust does too. */
  lemma {:induction false} NarrowPage(items: seq<Item>, k: nat)
    requires k <= |items| && PageBefore(Kotlin, items, k) == Some(GENERIC_DESKTOP)
    ensures PageBefore(Rust, items, k) == Some(GENERIC_DESKTOP)
  {
    if items[k - 1].tag != USAGE_PAGE {
      NarrowPage(items, k - 1);
    }
  }

  /** Rust decides whenever Kotlin does, and no later. */
  lemma RustDecidesFirst(items: seq<Item>)
    ensures var r, k := FirstDecision(Rust, items, 0), FirstDecision(Kotlin, items, 0);
            && (k.Some? ==> r.Some? && r.value <= k.value)
            && (r.Some? && PageBefore(Kotlin, items, r.value) == Some(GENERIC_DESKTOP) ==> k == r)
  {
    var r, k := FirstDecision(Rust, items, 0), FirstDecision(Kotlin, items, 0);
    if k.Some? {
      NarrowPage(items, k.value);
      assert Decides(Rust, items, k.value);
    }
    if r.Some? && PageBefore(Kotlin, items, r.value) == Some(GENERIC_DESKTOP) {
      assert Decides(Kotlin, items, r.value);
    }
  }

  /**
   * The two classifiers agree on a descriptor iff, at the item that decides for Rust, Kotlin sees the same page
   * and the Usage is below 256 or names nothing by its low byte; or else Kotlin, which goes on from there, ends
   * with the kind that the low byte names.
   */
  lemma LanguagesAgreeIff(desc: bytes)
    ensures var items := Items(desc);
            var r, k := FirstDecision(Rust, items, 0), FirstDecision(Kotlin, items, 0);
            Classify(Rust, desc) == Classify(Kotlin, desc) <==>
            (r.Some? ==>
               var usage := items[r.value].data;
               if PageBefore(Kotlin, items, r.value) == Some(GENERIC_DESKTOP) then
                 usage < 0x100 || usage % 0x100 !in {2, 4, 5, 6}
               else
                 KindOf(usage % 0x100) == if k.Some? then KindOf(items[k.value].data) else Other)
  {
    hide Items, FirstDecision, WellFormed, EncodeItems, PageBefore;
    RustDecidesFirst(Items(desc));
    forall data: nat ensures KindOf(Seen(Kotlin, data)) == KindOf(data) {
      WideUsage(data);
    }
  }

  /** No usage of 256 or more is known to Kotlin, read as a signed word or not. */
  lemma WideUsage(data: nat)
    ensures KindOf(Seen(Kotlin, data)) == KindOf(data)
  {
  }

  lemma {:induction false} SamePages(items: seq<Item>, k: nat)
    requires k <= |items|
    requires forall it | it in items && it.tag == USAGE_PAGE :: it.data < 0x100
    ensures PageBefore(Rust, items, k) == PageBefore(Kotlin, items, k)
  {
    if k > 0 {
      SamePages(items, k - 1);
    }
  }

  /** With Usage Page data below 256 the condition is on the deciding Usage alone. */
  lemma AgreeOnNarrowPages(desc: bytes)
    requires forall it | it in Items(desc) && it.tag == USAGE_PAGE :: it.data < 0x100
    ensures var items, r := Items(desc), FirstDecision(Rust, Items(desc), 0);
            Classify(Rust, desc) == Classify(Kotlin, desc) <==>
            (r.Some? ==> items[r.value].data < 0x100 || items[r.value].data % 0x100 !in {2, 4, 5, 6})
  {
    hide Items, Classify;
    var r := FirstDecision(Rust, Items(desc), 0);
    LanguagesAgreeIff(desc);
    if r.Some? {
      SamePages(Items(desc), r.value);
    }
  }

  lemma LanguagesAgree(desc: bytes)
    requires forall it | it in Items(desc) && it.tag in {USAGE_PAGE, USAGE} :: it.data < 0x100
    ensures Classify(Rust, desc) == Classify(Kotlin, desc)
  {
    hide Items, Classify;
    AgreeOnNarrowPages(desc);
  }

  lemma TwoItems(desc: bytes, a: Item, b: Item)
    requires WellFormed(a) && WellFormed(b) && desc == EncodeItem(a) + EncodeItem(b)
    ensures Items(desc) == [a, b]
  {
    hide EncodeItem;
    ItemRoundTrip(b, []);
    ItemRoundTrip(a, EncodeItem(b));
    assert EncodeItem(b) + [] == EncodeItem(b);
  }

  /** Two-byte data set the languages apart: in the Usage, and in the Usage Page. */
  lemma WideDataDiffers()
    ensures Classify(Rust, [0x05, 0x01, 0x0A, 0x02, 0x01]) == Mouse
    ensures Classify(Kotlin, [0x05, 0x01, 0x0A, 0x02, 0x01]) == Other
    ensures Classify(Rust, [0x06, 0x01, 0x01, 0x09, 0x02]) == Mouse
    ensures Classify(Kotlin, [0x06, 0x01, 0x01, 0x09, 0x02]) == Other
  {
    hide Items;
    TwoItems([0x05, 0x01, 0x0A, 0x02, 0x01], Item(4, 1, 1), Item(8, 2, 0x102));
    TwoItems([0x06, 0x01, 0x01, 0x09, 0x02], Item(4, 2, 0x101), Item(8, 1, 2));
  }

  /** Anything that starts like the boot mouse or the keyboard descriptor is one, in both languages. */
  lemma BootDescriptors(lang: Language, t: bytes)
    ensures Classify(lang, [0x05, 0x01, 0x09, 0x02] + t) == Mouse
    ensures Classify(lang, [0x05, 0x01, 0x09, 0x06] + t) == Keyboard
  {
    hide Items;
    TwoItems([0x05, 0x01, 0x09, 0x02], Item(4, 1, 1), Item(8, 1, 2));
    TwoItems([0x05, 0x01, 0x09, 0x06], Item(4, 1, 1), Item(8, 1, 6));
    assert Decides(lang, [Item(4, 1, 1), Item(8, 1, 2)], 1) && Decides(lang, [Item(4, 1, 1), Item(8, 1, 6)], 1);
    EarlyDecisionSurvives(lang, [0x05, 0x01, 0x09, 0x02], t);
    EarlyDecisionSurvives(lang, [0x05, 0x01, 0x09, 0x06], t);
  }
}
