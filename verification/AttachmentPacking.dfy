/** mfg_event_converter.py, PhaseCopier.copy_attachments: packing attachments under a byte budget. */
module AttachmentPacking {
  import opened Prelude
  import opened Names
  import Uniquizer = PhaseUniquizer

  // ---------------------------------------------------------------- data

  /** A MIME type, or the MULTIDIM_JSON marker of converted measurements. */
  datatype Mimetype = Mime(name: string) | MultidimMarker

  datatype EventType = Jpg | Png | Wav | TextUtf8 | Tiff | Mp4 | MultidimJson | Binary

  datatype Attachment = Attachment(data: seq<bv8>, size: nat, mimetype: Mimetype)

  datatype EventAttachment = EventAttachment(name: string, value: seq<bv8>, eventType: EventType)

  datatype CacheKey = CacheKey(name: string, size: nat)

  type Cache = map<CacheKey, EventAttachment>

  datatype Item = Item(name: string, attachment: Attachment)
  {
    function Key(): CacheKey { CacheKey(name, attachment.size) }
  }

  /** Nine tenths of a gibibyte, rounded down. */
  const MAX_TOTAL_ATTACHMENT_BYTES: nat := 966367641

  const MIMETYPE_MAP: map<string, EventType> := map[
    "image/jpeg" := Jpg, "image/png" := Png, "audio/x-wav" := Wav, "text/plain" := TextUtf8, "image/tiff" := Tiff,
    "video/mp4" := Mp4]

  /** _copy_attachment */
  function Convert(item: Item): EventAttachment {
    var t := match item.attachment.mimetype
      case MultidimMarker => MultidimJson
      case Mime(m) => if m in MIMETYPE_MAP then MIMETYPE_MAP[m] else Binary;
    EventAttachment(item.name, item.attachment.data, t)
  }

  // ---------------------------------------------------------------- what becomes of each attachment

  datatype Fate = FromCache | Copied | Skipped

  function Sum(sizes: seq<nat>): nat {
    if sizes == [] then 0 else Sum(sizes[..|sizes| - 1]) + sizes[|sizes| - 1]
  }

  function CopiedSizes(items: seq<Item>, fates: seq<Fate>): seq<nat>
    requires |items| == |fates|
  {
    if items == [] then []
    else
      var n := |items| - 1;
      CopiedSizes(items[..n], fates[..n]) + (if fates[n] == Copied then [items[n].attachment.size] else [])
  }

  predicate IsCached(cache: Option<Cache>, item: Item) {
    cache.Some? && item.Key() in cache.value
  }

  /** The decision for the next attachment, given the sizes copied so far. */
  function Decide(cache: Option<Cache>, copied: seq<nat>, item: Item): Fate {
    if IsCached(cache, item) then FromCache
    else if cache.Some? && copied != [] && Sum(copied) + item.attachment.size > MAX_TOTAL_ATTACHMENT_BYTES then Skipped
    else Copied
  }

  function Fates(items: seq<Item>, cache: Option<Cache>): (fates: seq<Fate>)
    ensures |fates| == |items|
  {
    if items == [] then []
    else
      var n := |items| - 1;
      var before := Fates(items[..n], cache);
      before + [Decide(cache, CopiedSizes(items[..n], before), items[n])]
  }

  function Emit(items: seq<Item>, fates: seq<Fate>, cache: Option<Cache>): seq<EventAttachment>
    requires |items| == |fates|
  {
    if items == [] then []
    else
      var n := |items| - 1;
      Emit(items[..n], fates[..n], cache) + EmitOne(items[n], fates[n], cache)
  }

  function EmitOne(item: Item, fate: Fate, cache: Option<Cache>): seq<EventAttachment> {
    match fate
    case Skipped => []
    case Copied => [Convert(item)]
    case FromCache => if IsCached(cache, item) then [cache.value[item.Key()]] else []
  }

  predicate AllSent(items: seq<Item>, cache: Option<Cache>) {
    Skipped !in Fates(items, cache)
  }

  /** A phase's attachments in the order of the inner loop. */
  ghost function ItemsOfPhase(d: map<string, Attachment>): seq<Item> {
    NamesAreKeys(d.Keys);
    var names := SortedKeys(d.Keys);
    seq(|names|, i requires 0 <= i < |names| => Item(names[i], d[names[i]]))
  }

  ghost function Items(phases: seq<map<string, Attachment>>): seq<Item> {
    if phases == [] then [] else Items(phases[..|phases| - 1]) + ItemsOfPhase(phases[|phases| - 1])
  }

  lemma NamesAreKeys(s: set<string>)
    ensures forall i :: 0 <= i < |SortedKeys(s)| ==> SortedKeys(s)[i] in s
  {
    SortedKeysSorts(s);
  }

  // ---------------------------------------------------------------- the method

  class MfgEvent {
    var attachment: seq<EventAttachment>

    constructor ()
      ensures attachment == []
    {
      attachment := [];
    }
  }

  /** What the loop has done with the attachments so far. */
  ghost predicate Packed(
      items: seq<Item>, cache: Option<Cache>, start: seq<EventAttachment>, event: MfgEvent, sizes: seq<nat>,
      skipped: seq<string>)
    reads event
  {
    var fates := Fates(items, cache);
    && event.attachment == start + Emit(items, fates, cache)
    && sizes == CopiedSizes(items, fates)
    && (skipped == [] <==> Skipped !in fates)
  }

  lemma FatesGrow(items: seq<Item>, cache: Option<Cache>, item: Item)
    ensures var fates, more := Fates(items, cache), items + [item];
            var fate := Decide(cache, CopiedSizes(items, fates), item);
            && Fates(more, cache) == fates + [fate]
            && Emit(more, fates + [fate], cache) == Emit(items, fates, cache) + EmitOne(item, fate, cache)
            && CopiedSizes(more, fates + [fate]) ==
               CopiedSizes(items, fates) + (if fate == Copied then [item.attachment.size] else [])
  {
    var fates, more := Fates(items, cache), items + [item];
    var fate := Decide(cache, CopiedSizes(items, fates), item);
    assert more[..|items|] == items && (fates + [fate])[..|items|] == fates;
  }

  lemma Prefixes<T>(done: seq<T>, items: seq<T>)
    ensures done + items[..0] == done && done + items[..|items|] == done + items
  {
  }

  lemma NextPrefix<T>(done: seq<T>, items: seq<T>, i: nat)
    requires i < |items|
    ensures done + items[..i] + [items[i]] == done + items[..i + 1]
  {
  }

  /** The phases and the cache never change once a copier is made. */
  class PhaseCopier {
    const phases: seq<map<string, Attachment>>
    /** None without partial uploads */
    const cache: Option<Cache>

    constructor (phases: seq<map<string, Attachment>>, cache: Option<Cache>)
      ensures this.phases == phases && this.cache == cache
    {
      this.phases := phases;
      this.cache := cache;
    }

    /** One turn of the inner loop. */
    method CopyOne(event: MfgEvent, name: string, attachment: Attachment, sizes: seq<nat>, skipped: seq<string>,
                   ghost done: seq<Item>, ghost start: seq<EventAttachment>)
      returns (newSizes: seq<nat>, newSkipped: seq<string>)
      requires Packed(done, cache, start, event, sizes, skipped)
      modifies event
      ensures Packed(done + [Item(name, attachment)], cache, start, event, newSizes, newSkipped)
    {
      newSizes, newSkipped := sizes, skipped;
      var size := attachment.size;
      var item := Item(name, attachment);
      FatesGrow(done, cache, item);
      if cache.Some? && CacheKey(name, size) in cache.value {
        event.attachment := event.attachment + [cache.value[CacheKey(name, size)]];
      } else if cache.Some? && sizes != [] && Sum(sizes) + size > MAX_TOTAL_ATTACHMENT_BYTES {
        newSkipped := skipped + [name];
      } else {
        newSizes := sizes + [size];
        event.attachment := event.attachment + [Convert(item)];
      }
    }

    /** The inner loop. */
    method CopyPhase(event: MfgEvent, d: map<string, Attachment>, sizes: seq<nat>, skipped: seq<string>,
                     ghost done: seq<Item>, ghost start: seq<EventAttachment>)
      returns (newSizes: seq<nat>, newSkipped: seq<string>)
      requires Packed(done, cache, start, event, sizes, skipped)
      modifies event
      ensures Packed(done + ItemsOfPhase(d), cache, start, event, newSizes, newSkipped)
    {
      newSizes, newSkipped := sizes, skipped;
      var names := SortKeys(d.Keys);
      NamesAreKeys(d.Keys);
      ghost var items, seen := ItemsOfPhase(d), done;
      Prefixes(done, items);
      for i := 0 to |names|
        invariant seen == done + items[..i]
        invariant Packed(seen, cache, start, event, newSizes, newSkipped)
      {
        newSizes, newSkipped := CopyOne(event, names[i], d[names[i]], newSizes, newSkipped, seen, start);
        NextPrefix(done, items, i);
        seen := seen + [items[i]];
      }
    }

    method CopyAttachments(event: MfgEvent) returns (ok: bool)
      modifies event
      ensures event.attachment == old(event.attachment) + Emit(Items(phases), Fates(Items(phases), cache), cache)
      ensures ok == AllSent(Items(phases), cache)
    {
      var sizes: seq<nat>, skipped: seq<string> := [], [];
      ghost var start := event.attachment;
      for p := 0 to |phases|
        invariant Packed(Items(phases[..p]), cache, start, event, sizes, skipped)
      {
        sizes, skipped := CopyPhase(event, phases[p], sizes, skipped, Items(phases[..p]), start);
        assert phases[..p + 1][..p] == phases[..p];
      }
      assert phases[..|phases|] == phases;
      return skipped == [];
    }
  }

  // ---------------------------------------------------------------- one cycle

  lemma {:induction false} FatesOfPrefix(items: seq<Item>, cache: Option<Cache>, i: nat)
    requires i <= |items|
    ensures Fates(items[..i], cache) == Fates(items, cache)[..i]
    decreases |items|
  {
    if i < |items| {
      var n := |items| - 1;
      FatesOfPrefix(items[..n], cache, i);
      assert items[..n][..i] == items[..i];
    } else {
      assert items[..i] == items;
    }
  }

  function CopiedBytes(items: seq<Item>, cache: Option<Cache>): nat {
    Sum(CopiedSizes(items, Fates(items, cache)))
  }

  /** Exactly when an attachment is taken from the cache, skipped or copied: the budget is 0.9 GiB. */
  lemma FateIff(items: seq<Item>, cache: Option<Cache>, i: nat)
    requires i < |items|
    ensures var fate, before := Fates(items, cache)[i], items[..i];
            && (fate == FromCache <==> IsCached(cache, items[i]))
            && (fate == Skipped <==>
                && !IsCached(cache, items[i]) && cache.Some?
                && Copied in Fates(items, cache)[..i]
                && 10 * (CopiedBytes(before, cache) + items[i].attachment.size) > 9 * 1024 * 1024 * 1024)
  {
    FatesOfPrefix(items, cache, i + 1);
    FatesOfPrefix(items, cache, i);
    assert items[..i + 1][..i] == items[..i];
    SomethingCopied(items[..i], Fates(items[..i], cache));
  }

  lemma {:induction false} SomethingCopied(items: seq<Item>, fates: seq<Fate>)
    requires |items| == |fates|
    ensures CopiedSizes(items, fates) != [] <==> Copied in fates
    decreases |items|
  {
    if items != [] {
      var n := |items| - 1;
      SomethingCopied(items[..n], fates[..n]);
      assert fates == fates[..n] + [fates[n]];
    }
  }

  /** With partial uploads the copied bytes fit nine tenths of a gibibyte, unless a single attachment was copied. */
  lemma {:induction false} BudgetKept(items: seq<Item>, cache: Cache)
    ensures 10 * CopiedBytes(items, Some(cache)) <= 9 * 1024 * 1024 * 1024 ||
            |CopiedSizes(items, Fates(items, Some(cache)))| == 1
    decreases |items|
  {
    if items != [] {
      var n := |items| - 1;
      var front, last := items[..n], items[n];
      BudgetKept(front, cache);
      assert items == front + [last];
      FatesGrow(front, Some(cache), last);
      var sizes, size := CopiedSizes(front, Fates(front, Some(cache))), last.attachment.size;
      SumGrows(sizes, size);
      var fate := Decide(Some(cache), sizes, last);
      if fate == Copied {
        assert CopiedBytes(items, Some(cache)) == Sum(sizes) + size;
        assert |sizes| == 0 || Sum(sizes) + size <= MAX_TOTAL_ATTACHMENT_BYTES;
      } else {
        assert CopiedSizes(items, Fates(items, Some(cache))) == sizes;
      }
    }
  }

  lemma SumGrows(sizes: seq<nat>, size: nat)
    ensures Sum(sizes + [size]) == Sum(sizes) + size
  {
    assert (sizes + [size])[..|sizes|] == sizes;
  }

  /** Without partial uploads everything is copied, whatever its size. */
  lemma NoBudgetWithoutCache(items: seq<Item>)
    ensures AllSent(items, None) && forall i :: 0 <= i < |items| ==> Fates(items, None)[i] == Copied
  {
    forall i | 0 <= i < |items| ensures Fates(items, None)[i] == Copied {
      FateIff(items, None, i);
    }
  }

  /** How many of the first i attachments were not skipped. */
  function SentBefore(fates: seq<Fate>, i: nat): nat
    requires i <= |fates|
  {
    if i == 0 then 0 else SentBefore(fates, i - 1) + (if fates[i - 1] == Skipped then 0 else 1)
  }

  /**
    Every attachment that is not skipped is sent exactly once, in order: its entry in the event is
    the next one after those of the attachments sent before it, and there are no other entries.
   */
  lemma {:induction false} SentOnceInOrder(items: seq<Item>, cache: Option<Cache>, i: nat)
    requires i < |items|
    ensures var fates := Fates(items, cache);
            var sent := Emit(items, fates, cache);
            && |sent| == SentBefore(fates, |items|)
            && (fates[i] != Skipped ==>
                SentBefore(fates, i) < |sent| &&
                EmitOne(items[i], fates[i], cache) == [sent[SentBefore(fates, i)]])
    decreases |items|
  {
    var n := |items| - 1;
    var fates := Fates(items, cache);
    assert items == items[..n] + [items[n]];
    FatesGrow(items[..n], cache, items[n]);
    FatesOfPrefix(items, cache, n);
    SentBeforePrefix(fates, n, n);
    FateIff(items, cache, n);
    if i < n {
      SentOnceInOrder(items[..n], cache, i);
      SentBeforePrefix(fates, n, i);
      FateIff(items, cache, i);
    } else if n > 0 {
      SentOnceInOrder(items[..n], cache, 0);
    }
  }

  /** An entry with the attachment's name and data, and the type for its MIME type: BINARY for unknown ones. */
  predicate HasContentOf(entry: EventAttachment, item: Item) {
    var mimetype := item.attachment.mimetype;
    && entry.name == item.name && entry.value == item.attachment.data
    && (entry.eventType == Jpg <==> mimetype == Mime("image/jpeg"))
    && (entry.eventType == Png <==> mimetype == Mime("image/png"))
    && (entry.eventType == Wav <==> mimetype == Mime("audio/x-wav"))
    && (entry.eventType == TextUtf8 <==> mimetype == Mime("text/plain"))
    && (entry.eventType == Tiff <==> mimetype == Mime("image/tiff"))
    && (entry.eventType == Mp4 <==> mimetype == Mime("video/mp4"))
    && (entry.eventType == MultidimJson <==> mimetype == MultidimMarker)
  }

  lemma ConvertHasContent(item: Item)
    ensures HasContentOf(Convert(item), item)
  {
    assert "image/jpeg"[6] == 'j' && "image/png"[6] == 'p' && "image/tiff"[6] == 't';
    assert "audio/x-wav"[0] == 'a' && "text/plain"[0] == 't' && "video/mp4"[0] == 'v' && "image/png"[0] == 'i';
  }

  /**
    The entry of a copied attachment has its name and its data, and a type that tells its MIME type;
    the entry of a cached one is the one in the cache.
   */
  lemma EntriesAreContents(items: seq<Item>, cache: Option<Cache>, i: nat)
    requires i < |items| && Fates(items, cache)[i] != Skipped
    ensures var fates := Fates(items, cache);
            var sent, at := Emit(items, fates, cache), SentBefore(fates, i);
            && at < |sent|
            && (fates[i] == Copied ==> HasContentOf(sent[at], items[i]))
            && (fates[i] == FromCache ==> IsCached(cache, items[i]) && sent[at] == cache.value[items[i].Key()])
  {
    SentOnceInOrder(items, cache, i);
    FateIff(items, cache, i);
    ConvertHasContent(items[i]);
    EntryOfOne(items[i], Fates(items, cache)[i], cache);
  }

  lemma EntryOfOne(item: Item, fate: Fate, cache: Option<Cache>)
    ensures fate == Copied ==> EmitOne(item, fate, cache) == [Convert(item)]
    ensures fate == FromCache && IsCached(cache, item) ==> EmitOne(item, fate, cache) == [cache.value[item.Key()]]
  {
  }

  /** The copied bytes are the sizes of the copied attachments. */
  lemma CopiedBytesAdd(items: seq<Item>, cache: Option<Cache>, i: nat)
    requires i < |items|
    ensures CopiedBytes([], cache) == 0
    ensures CopiedBytes(items[..i + 1], cache) ==
            CopiedBytes(items[..i], cache) + if Fates(items, cache)[i] == Copied then items[i].attachment.size else 0
  {
    FatesOfPrefix(items, cache, i + 1);
    BytesGrow(items[..i], cache, items[i]);
    assert items[..i] + [items[i]] == items[..i + 1];
  }

  lemma BytesGrow(items: seq<Item>, cache: Option<Cache>, item: Item)
    ensures var fates := Fates(items + [item], cache);
            && |fates| == |items| + 1
            && CopiedBytes(items + [item], cache) ==
               CopiedBytes(items, cache) + if fates[|items|] == Copied then item.attachment.size else 0
  {
    FatesGrow(items, cache, item);
    var sizes := CopiedSizes(items, Fates(items, cache));
    SumGrows(sizes, item.attachment.size);
    assert sizes + [] == sizes;
  }

  lemma {:induction false} SentBeforePrefix(fates: seq<Fate>, n: nat, i: nat)
    requires i <= n <= |fates|
    ensures SentBefore(fates[..n], i) == SentBefore(fates, i)
    decreases i
  {
    if i > 0 {
      SentBeforePrefix(fates, n, i - 1);
    }
  }

  // ---------------------------------------------------------------- repeated cycles

  /** The cache with the copied attachments added to it. */
  function WithCopied(items: seq<Item>, fates: seq<Fate>, cache: Cache): Cache
    requires |items| == |fates|
  {
    if items == [] then cache
    else
      var n := |items| - 1;
      var before := WithCopied(items[..n], fates[..n], cache);
      if fates[n] == Copied then before[items[n].Key() := Convert(items[n])] else before
  }

  /** The cache for the next cycle: the copied attachments are uploaded now. */
  function CacheAfter(items: seq<Item>, cache: Cache): Cache {
    WithCopied(items, Fates(items, Some(cache)), cache)
  }

  function CacheAfterCycles(items: seq<Item>, cache: Cache, n: nat): Cache
    decreases n
  {
    if n == 0 then cache else CacheAfterCycles(items, CacheAfter(items, cache), n - 1)
  }

  ghost function Uncached(items: seq<Item>, cache: Cache): set<int> {
    set i | 0 <= i < |items| && items[i].Key() !in cache
  }

  lemma {:induction false} WithCopiedKeys(items: seq<Item>, fates: seq<Fate>, cache: Cache, key: CacheKey)
    requires |items| == |fates|
    ensures key in WithCopied(items, fates, cache) <==>
            key in cache || exists j :: 0 <= j < |items| && fates[j] == Copied && items[j].Key() == key
    decreases |items|
  {
    if items != [] {
      var n := |items| - 1;
      WithCopiedKeys(items[..n], fates[..n], cache, key);
      if j :| 0 <= j < n && fates[j] == Copied && items[j].Key() == key {
        assert fates[..n][j] == Copied && items[..n][j].Key() == key;
      }
    }
  }

  lemma CachedAfterIff(items: seq<Item>, cache: Cache, i: nat)
    requires i < |items|
    ensures items[i].Key() in CacheAfter(items, cache) <==>
            || items[i].Key() in cache
            || exists j :: 0 <= j < |items| &&
                           Fates(items, Some(cache))[j] == Copied && items[j].Key() == items[i].Key()
  {
    WithCopiedKeys(items, Fates(items, Some(cache)), cache, items[i].Key());
  }

  /** The first attachment that is not cached is always copied, however large it is. */
  lemma FirstUncachedIsCopied(items: seq<Item>, cache: Cache, i: nat)
    requires i < |items| && items[i].Key() !in cache
    requires forall j :: 0 <= j < i ==> items[j].Key() in cache
    ensures Fates(items, Some(cache))[i] == Copied
  {
    FateIff(items, Some(cache), i);
    forall j | 0 <= j < i ensures Fates(items, Some(cache))[j] == FromCache {
      FateIff(items, Some(cache), j);
    }
  }

  lemma {:induction false} FirstUncached(items: seq<Item>, cache: Cache, n: nat) returns (i: nat)
    requires n <= |items| && forall j :: 0 <= j < n ==> items[j].Key() in cache
    requires exists j :: 0 <= j < |items| && items[j].Key() !in cache
    ensures i < |items| && items[i].Key() !in cache && forall j :: 0 <= j < i ==> items[j].Key() in cache
    decreases |items| - n
  {
    if items[n].Key() in cache {
      i := FirstUncached(items, cache, n + 1);
    } else {
      i := n;
    }
  }

  /** Every cycle that has something to upload uploads something. */
  lemma CycleProgress(items: seq<Item>, cache: Cache)
    ensures Uncached(items, CacheAfter(items, cache)) <= Uncached(items, cache)
    ensures Uncached(items, cache) != {} ==> |Uncached(items, CacheAfter(items, cache))| < |Uncached(items, cache)|
  {
    var u, v := Uncached(items, cache), Uncached(items, CacheAfter(items, cache));
    forall i <- v ensures i in u {
      CachedAfterIff(items, cache, i);
    }
    if u != {} {
      var k :| k in u;
      assert items[k].Key() !in cache;
      var i := FirstUncached(items, cache, 0);
      FirstUncachedIsCopied(items, cache, i);
      CachedAfterIff(items, cache, i);
      assert i in u - v && u == v + (u - v);
    }
  }

  lemma TwoMembers(s: set<int>, i: int, j: int)
    requires i in s && j in s && i != j
    ensures |s| >= 2
  {
    var rest := s - {i};
    assert s == rest + {i} && j in rest;
  }

  /** One attachment to upload is never skipped. */
  lemma FewUncachedAreSent(items: seq<Item>, cache: Cache)
    requires |Uncached(items, cache)| <= 1
    ensures AllSent(items, Some(cache))
  {
    var fates := Fates(items, Some(cache));
    forall i | 0 <= i < |items| ensures fates[i] != Skipped {
      FateIff(items, Some(cache), i);
      if j :| 0 <= j < i && fates[j] == Copied && items[i].Key() !in cache {
        FateIff(items, Some(cache), j);
        TwoMembers(Uncached(items, cache), i, j);
      }
    }
  }

  lemma SentIsCachedAfter(items: seq<Item>, cache: Cache, i: nat)
    requires i < |items| && Fates(items, Some(cache))[i] != Skipped
    ensures items[i].Key() in CacheAfter(items, cache)
  {
    FateIff(items, Some(cache), i);
    CachedAfterIff(items, cache, i);
  }

  /** Once everything was sent, every later cycle takes everything from the cache. */
  lemma SentStaysSent(items: seq<Item>, cache: Cache)
    requires AllSent(items, Some(cache))
    ensures forall i :: 0 <= i < |items| ==> Fates(items, Some(CacheAfter(items, cache)))[i] == FromCache
  {
    var fates := Fates(items, Some(cache));
    forall i | 0 <= i < |items| ensures Fates(items, Some(CacheAfter(items, cache)))[i] == FromCache {
      assert fates[i] in fates && fates[i] != Skipped;
      SentIsCachedAfter(items, cache, i);
      FateIff(items, Some(CacheAfter(items, cache)), i);
    }
  }

  /**
    Repeating the upload with the copied attachments added to the cache succeeds within as many
    cycles as there are attachments that are not cached (one cycle if there are none).
   */
  lemma {:induction false} CyclesSucceed(items: seq<Item>, cache: Cache) returns (n: nat)
    ensures n < |Uncached(items, cache)| || n == 0
    ensures AllSent(items, Some(CacheAfterCycles(items, cache, n)))
    decreases |Uncached(items, cache)|
  {
    if |Uncached(items, cache)| <= 1 {
      FewUncachedAreSent(items, cache);
      n := 0;
    } else {
      CycleProgress(items, cache);
      var m := CyclesSucceed(items, CacheAfter(items, cache));
      n := m + 1;
    }
  }

  ghost predicate ComesFrom(items: seq<Item>, key: CacheKey, value: EventAttachment) {
    exists j :: 0 <= j < |items| && items[j].Key() == key && Convert(items[j]) == value
  }

  lemma {:induction false} WithCopiedValue(items: seq<Item>, fates: seq<Fate>, cache: Cache, key: CacheKey)
    requires |items| == |fates| && key in WithCopied(items, fates, cache)
    requires key in cache ==> forall j :: 0 <= j < |items| && items[j].Key() == key ==> fates[j] != Copied
    ensures var value := WithCopied(items, fates, cache)[key];
            if key in cache then value == cache[key] else ComesFrom(items, key, value)
    decreases |items|
  {
    if items != [] {
      var n := |items| - 1;
      if fates[n] != Copied || items[n].Key() != key {
        WithCopiedValue(items[..n], fates[..n], cache, key);
        var value := WithCopied(items, fates, cache)[key];
        if j :| 0 <= j < n && items[..n][j].Key() == key && Convert(items[..n][j]) == value {
          assert items[j].Key() == key && Convert(items[j]) == value;
        }
      } else {
        assert Convert(items[n]) == WithCopied(items, fates, cache)[key];
      }
    }
  }

  /** The cycles never change a cached entry, and add only entries of the attachments. */
  lemma {:induction false} CyclesValue(items: seq<Item>, cache: Cache, n: nat, key: CacheKey)
    ensures var last := CacheAfterCycles(items, cache, n);
            && (key in cache ==> key in last && last[key] == cache[key])
            && (key in last && key !in cache ==> ComesFrom(items, key, last[key]))
    decreases n
  {
    if n > 0 {
      var fates := Fates(items, Some(cache));
      CyclesValue(items, CacheAfter(items, cache), n - 1, key);
      WithCopiedKeys(items, fates, cache, key);
      forall j | 0 <= j < |items| && items[j].Key() == key && key in cache ensures fates[j] != Copied {
        FateIff(items, Some(cache), j);
      }
      if key in CacheAfter(items, cache) {
        WithCopiedValue(items, fates, cache, key);
      }
    }
  }

  /** Attachments to upload that the cache key cannot tell apart have the same content. */
  ghost predicate KeysTellApart(items: seq<Item>, cache: Cache) {
    forall i, j ::
      0 <= i < |items| && 0 <= j < |items| && items[i].Key() == items[j].Key() && items[i].Key() !in cache ==>
        Convert(items[i]) == Convert(items[j])
  }

  /**
    After enough cycles the cache holds every attachment under its own content if and only if no
    two different attachments to upload share their name and size.
   */
  lemma OwnContentIff(items: seq<Item>, cache: Cache, n: nat)
    requires Uncached(items, CacheAfterCycles(items, cache, n)) == {}
    ensures (forall i :: 0 <= i < |items| && items[i].Key() !in cache ==>
               items[i].Key() in CacheAfterCycles(items, cache, n) &&
               CacheAfterCycles(items, cache, n)[items[i].Key()] == Convert(items[i]))
            <==> KeysTellApart(items, cache)
  {
    var last := CacheAfterCycles(items, cache, n);
    forall i | 0 <= i < |items| ensures items[i].Key() in last {
      assert i in Uncached(items, last) <==> items[i].Key() !in last;
    }
    if KeysTellApart(items, cache) {
      forall i | 0 <= i < |items| && items[i].Key() !in cache ensures last[items[i].Key()] == Convert(items[i]) {
        CyclesValue(items, cache, n, items[i].Key());
        var j :| 0 <= j < |items| && items[j].Key() == items[i].Key() && Convert(items[j]) == last[items[i].Key()];
      }
    }
  }

  /** The bound is tight: two attachments that do not fit together take two cycles. */
  lemma TwoCyclesNeeded(a: Item, b: Item)
    requires 10 * (a.attachment.size + b.attachment.size) > 9 * 1024 * 1024 * 1024
    ensures !AllSent([a, b], Some(map[]))
  {
    var items := [a, b];
    assert items[..1] == [a] && [a][..0] == [];
    assert Fates([a], Some(map[])) == [Copied];
    assert CopiedSizes([a], [Copied]) == [a.attachment.size];
    assert Fates(items, Some(map[]))[1] == Skipped;
  }

  // ---------------------------------------------------------------- whose content is sent

  /** In the cycle that starts with this cache, the attachment's entry in the event has its own content. */
  predicate SendsOwn(items: seq<Item>, cache: Cache, j: nat)
    requires j < |items|
  {
    EmitOne(items[j], Fates(items, Some(cache))[j], Some(cache)) == [Convert(items[j])]
  }

  lemma SendsOwnIff(items: seq<Item>, cache: Cache, j: nat)
    requires j < |items|
    ensures SendsOwn(items, cache, j) <==>
            if items[j].Key() in cache then cache[items[j].Key()] == Convert(items[j])
            else Fates(items, Some(cache))[j] != Skipped
  {
    FateIff(items, Some(cache), j);
  }

  lemma {:induction false} CyclesAdd(items: seq<Item>, cache: Cache, m: nat, n: nat)
    ensures CacheAfterCycles(items, cache, m + n) == CacheAfterCycles(items, CacheAfterCycles(items, cache, m), n)
    decreases m
  {
    if m > 0 {
      CyclesAdd(items, CacheAfter(items, cache), m - 1, n);
    }
  }

  /** The cycle in which an attachment's key gets into the cache. */
  lemma {:induction false} CachingCycle(items: seq<Item>, cache: Cache, n: nat, key: CacheKey) returns (f: nat)
    requires key !in cache && key in CacheAfterCycles(items, cache, n)
    ensures f < n && key !in CacheAfterCycles(items, cache, f) && key in CacheAfterCycles(items, cache, f + 1)
    decreases n
  {
    if key in CacheAfterCycles(items, cache, n - 1) {
      f := CachingCycle(items, cache, n - 1, key);
    } else {
      f := n - 1;
    }
  }

  lemma NextCycle(items: seq<Item>, cache: Cache, m: nat)
    ensures CacheAfterCycles(items, cache, m + 1) == CacheAfter(items, CacheAfterCycles(items, cache, m))
  {
    CyclesAdd(items, cache, m, 1);
    var c := CacheAfterCycles(items, cache, m);
    assert CacheAfterCycles(items, c, 1) == CacheAfterCycles(items, CacheAfter(items, c), 0);
  }

  lemma CachedStays(items: seq<Item>, cache: Cache, after: Cache, n: nat, key: CacheKey)
    requires key in cache && after == CacheAfterCycles(items, cache, n)
    ensures key in after && after[key] == cache[key]
  {
    CyclesValue(items, cache, n, key);
  }

  /** A cached entry stays as it is. */
  lemma KeyStays(items: seq<Item>, cache: Cache, f: nat, m: nat, key: CacheKey)
    requires f <= m && key in CacheAfterCycles(items, cache, f)
    ensures key in CacheAfterCycles(items, cache, m)
    ensures CacheAfterCycles(items, cache, m)[key] == CacheAfterCycles(items, cache, f)[key]
  {
    var c, d := CacheAfterCycles(items, cache, f), CacheAfterCycles(items, cache, m);
    assert d == CacheAfterCycles(items, c, m - f) by { CyclesAdd(items, cache, f, m - f); }
    CachedStays(items, c, d, m - f, key);
  }

  lemma CycleThatSkipsSendsNothing(items: seq<Item>, cache: Cache, j: nat)
    requires j < |items| && items[j].Key() !in CacheAfter(items, cache)
    ensures !SendsOwn(items, cache, j)
  {
    if Fates(items, Some(cache))[j] != Skipped {
      SentIsCachedAfter(items, cache, j);
    }
  }

  /** The key of every attachment to upload gets into the cache in some cycle, and stays there. */
  lemma DecidingCycle(items: seq<Item>, cache: Cache, j: nat) returns (f: nat)
    requires j < |items| && items[j].Key() !in cache
    ensures items[j].Key() !in CacheAfterCycles(items, cache, f)
    ensures items[j].Key() in CacheAfterCycles(items, cache, f + 1)
  {
    var n := CyclesSucceed(items, cache);
    var c := CacheAfterCycles(items, cache, n);
    NextCycle(items, cache, n);
    assert Fates(items, Some(c))[j] in Fates(items, Some(c));
    SentIsCachedAfter(items, c, j);
    f := CachingCycle(items, cache, n + 1, items[j].Key());
  }

  /** Cycle f caches the attachment's key, skips the attachment, and leaves another content in the cache. */
  ghost predicate LosesContent(items: seq<Item>, cache: Cache, j: nat, f: nat)
    requires j < |items|
  {
    var key, at, after := items[j].Key(), CacheAfterCycles(items, cache, f), CacheAfterCycles(items, cache, f + 1);
    && key !in at && key in after
    && Fates(items, Some(at))[j] == Skipped && after[key] != Convert(items[j])
  }

  /**
    The content of an attachment to upload is never sent, in any cycle, if and only if it is skipped
    in the cycle that caches its key, and the cache then holds another content.
   */
  lemma OwnContentSentIff(items: seq<Item>, cache: Cache, j: nat)
    requires j < |items| && items[j].Key() !in cache
    ensures (forall m: nat :: !SendsOwn(items, CacheAfterCycles(items, cache, m), j)) <==>
            exists f: nat :: LosesContent(items, cache, j, f)
  {
    if f: nat :| LosesContent(items, cache, j, f) {
      forall m: nat ensures !SendsOwn(items, CacheAfterCycles(items, cache, m), j) {
        NeverSent(items, cache, j, f, m);
      }
    } else {
      var f := DecidingCycle(items, cache, j);
      assert !LosesContent(items, cache, j, f);
      SendsOwnIff(items, CacheAfterCycles(items, cache, f), j);
      SendsOwnIff(items, CacheAfterCycles(items, cache, f + 1), j);
    }
  }

  lemma NeverSent(items: seq<Item>, cache: Cache, j: nat, f: nat, m: nat)
    requires j < |items| && LosesContent(items, cache, j, f)
    ensures !SendsOwn(items, CacheAfterCycles(items, cache, m), j)
  {
    if m < f {
      NotSentBefore(items, cache, j, f, m);
    } else {
      if m > f { KeyStays(items, cache, f + 1, m, items[j].Key()); }
      SendsOwnIff(items, CacheAfterCycles(items, cache, m), j);
    }
  }

  lemma NotSentBefore(items: seq<Item>, cache: Cache, j: nat, f: nat, m: nat)
    requires j < |items| && m < f && items[j].Key() !in CacheAfterCycles(items, cache, f)
    ensures !SendsOwn(items, CacheAfterCycles(items, cache, m), j)
  {
    var c := CacheAfterCycles(items, cache, m);
    NextCycle(items, cache, m);
    if items[j].Key() in CacheAfter(items, c) {
      KeyStays(items, cache, m + 1, f, items[j].Key());
    }
    CycleThatSkipsSendsNothing(items, c, j);
  }

  lemma TwoFates(a: Item, b: Item, cache: Option<Cache>)
    ensures var first := Decide(cache, [], a);
            var sizes := if first == Copied then [a.attachment.size] else [];
            var second := Decide(cache, sizes, b);
            && Fates([a, b], cache) == [first, second]
            && Emit([a, b], [first, second], cache) == EmitOne(a, first, cache) + EmitOne(b, second, cache)
  {
    FatesGrow([], cache, a);
    FatesGrow([a], cache, b);
    assert [] + [a] == [a] && [a] + [b] == [a, b];
  }

  /** Two attachments under one key that fit the budget together are both sent, in one cycle. */
  lemma BothSentWithinBudget(a: Item, b: Item)
    requires a.Key() == b.Key() && 10 * (a.attachment.size + b.attachment.size) <= 9 * 1024 * 1024 * 1024
    ensures AllSent([a, b], Some(map[]))
    ensures Emit([a, b], Fates([a, b], Some(map[])), Some(map[])) == [Convert(a), Convert(b)]
  {
    TwoFates(a, b, Some(map[]));
    SumGrows([], a.attachment.size);
    assert Sum([]) == 0 && [] + [a.attachment.size] == [a.attachment.size];
  }

  /** If they do not fit, and differ, the second one is never sent. */
  lemma SecondNeverSent(a: Item, b: Item)
    requires a.Key() == b.Key() && Convert(a) != Convert(b)
    requires a.attachment.size + b.attachment.size > MAX_TOTAL_ATTACHMENT_BYTES
    ensures forall m: nat :: !SendsOwn([a, b], CacheAfterCycles([a, b], map[], m), 1)
  {
    var items := [a, b];
    TwoFates(a, b, Some(map[]));
    SumGrows([], a.attachment.size);
    assert Sum([]) == 0 && [] + [a.attachment.size] == [a.attachment.size];
    NextCycle(items, map[], 0);
    assert items[..1] == [a] && [a][..0] == [] && [Copied, Skipped][..1] == [Copied];
    assert WithCopied([], [], map[]) == map[];
    assert WithCopied([a], [Copied], map[]) == map[][a.Key() := Convert(a)];
    assert WithCopied(items, [Copied, Skipped], map[]) == map[][a.Key() := Convert(a)];
    assert LosesContent(items, map[], 1, 0);
    OwnContentSentIff(items, map[], 1);
  }

  /**
    The keys of one record can coincide although names are made unique before: two attachments
    named a get the numbers 0 and 1, and a third one is named a_0 already.
   */
  lemma UniquizedNamesCanClash(x: Attachment, y: Attachment, z: Attachment)
    ensures var ds := [map["a" := x], map["a" := y], map["a_0" := z]];
            var counts := Uniquizer.KeyCounts(Uniquizer.KeySets(ds));
            && Uniquizer.Rekeyed(counts, ds, 0) == map["a_0" := x]
            && Uniquizer.Rekeyed(counts, ds, 1) == map["a_1" := y]
            && Uniquizer.Rekeyed(counts, ds, 2) == map["a_0" := z]
  {
    var ds := [map["a" := x], map["a" := y], map["a_0" := z]];
    var keys := Uniquizer.KeySets(ds);
    var counts := Uniquizer.KeyCounts(keys);
    assert ds[0].Keys == {"a"} && ds[1].Keys == {"a"} && ds[2].Keys == {"a_0"};
    assert |keys| == 3 && keys[0] == {"a"} && keys[1] == {"a"} && keys[2] == {"a_0"};
    CountsOfThree(keys, "a", "a_0");
    NumberedA();
    OneKeyMoves(counts, ds, 0, "a", x);
    OneKeyMoves(counts, ds, 1, "a", y);
    OneKeyMoves(counts, ds, 2, "a_0", z);
  }

  lemma CountsOfThree(keys: seq<set<string>>, n: string, u: string)
    requires keys == [{n}, {n}, {u}] && n != u
    ensures Uniquizer.KeyCounts(keys) == multiset{n, n, u}
    ensures Uniquizer.Holding(keys[..0], n) == 0 && Uniquizer.Holding(keys[..1], n) == 1
  {
    assert keys[..2] == [{n}, {n}] && [{n}, {n}][..1] == [{n}] && [{n}][..0] == [] && keys[..1] == [{n}];
    assert Uniquizer.KeyCounts([{n}]) == multiset{n};
    assert Uniquizer.KeyCounts([{n}, {n}]) == multiset{n, n};
    assert multiset({u}) == multiset{u} && Uniquizer.KeyCounts(keys) == multiset{n, n} + multiset{u};
  }

  lemma NumberedA()
    ensures Numbered("a", 0) == "a_0" && Numbered("a", 1) == "a_1"
  {
    assert LastIndex("a", '/') == -1 && LastIndex("a", '.') == -1;
  }

  lemma OneKeyMoves(counts: multiset<string>, ds: seq<map<string, Attachment>>, p: nat, n: string, x: Attachment)
    requires p < |ds| && ds[p] == map[n := x]
    ensures Uniquizer.Rekeyed(counts, ds, p) == map[Uniquizer.NewName(counts, Uniquizer.KeySets(ds), p, n) := x]
  {
    var from, to := SortedKeys(ds[p].Keys), Uniquizer.NewNames(counts, Uniquizer.KeySets(ds), p);
    SortedKeysSorts(ds[p].Keys);
    assert ds[p].Keys == {n} && |from| == 1 && from[0] in from;
    assert Uniquizer.Moved(ds[p], from, to, 0) == ds[p];
    assert Uniquizer.Moved(ds[p], from, to, 1) == Uniquizer.MoveKey(ds[p], from[0], to[0]);
  }
}
