/**
 The cache as the emulator keeps it: the fields of `struct hart` updated in place.
 Each method is proved against the function of `TranslationCache` it implements.
 */
module HartCache {
  import opened Words
  import opened SortSearch
  import opened PcIndex
  import opened Translator
  import opened TranslationCache

  // How a prefetch ends for its caller.
  datatype Status = Finished | Faulted(va: u32) | Aborted

  class TranslationTable {
    const pcMappings: array<Item>
    var nrTranslatedInstructions: nat
    var code: map<nat, Chunk>   // `translation_cache`
    var translationCachePtr: nat

    ghost predicate Valid()
      reads this
    {
      pcMappings.Length == MAX_INSTRUCTIONS_TOTRANSLATE && nrTranslatedInstructions <= pcMappings.Length
    }

    function View(): Cache
      requires Valid()
      reads this, pcMappings
    {
      Cache(pcMappings[..nrTranslatedInstructions], code, translationCachePtr)
    }

    constructor ()
      ensures Valid() && fresh(pcMappings) && View() == Cache([], map[], 0)
    {
      pcMappings := new Item[MAX_INSTRUCTIONS_TOTRANSLATE](_ => Item(0, 0));
      nrTranslatedInstructions, code, translationCachePtr := 0, map[], 0;
    }

    method FlushTranslationCache()
      requires Valid()
      modifies this
      ensures Valid() && View() == Flushed(old(View()))
    {
      nrTranslatedInstructions := 0;
      translationCachePtr := 0;
    }

    method UnoccupiedCacheSize(host: Host) returns (r: int)
      requires Valid()
      ensures r == Unoccupied(host, View())
    {
      r := 0;
      if nrTranslatedInstructions < MAX_INSTRUCTIONS_TOTRANSLATE {
        r := TRANSLATION_CACHE_SIZE - translationCachePtr - host.jumper;
      }
    }

    method SearchTranslationItem(guestPc: u32) returns (found: Option<nat>)
      requires Valid()
      ensures found == Find(View().index, guestPc)
    {
      found := Search(pcMappings, nrTranslatedInstructions, PcIndex.Compare, Item(guestPc, 0));
    }

    // Appending a mapping and moving it to its place.
    method InsertMapping(item: Item)
      requires Valid() && nrTranslatedInstructions < MAX_INSTRUCTIONS_TOTRANSLATE
      modifies this`nrTranslatedInstructions, pcMappings
      ensures Valid() && View() == old(View()).(index := Insert(old(View()).index, item))
    {
      hide Inserted, PcIndex.Compare;
      pcMappings[nrTranslatedInstructions] := item;
      nrTranslatedInstructions := nrTranslatedInstructions + 1;
      assert pcMappings[..nrTranslatedInstructions - 1] == old(View()).index;
      InsertionSort(pcMappings, nrTranslatedInstructions, PcIndex.Compare);
    }

    // Zero on success; nothing changes otherwise.
    method AddTranslationItem(host: Host, guestPc: u32, t: Template) returns (error: int)
      requires Valid()
      modifies this, pcMappings
      ensures Valid()
      ensures match AddItem(host, old(View()), guestPc, t)
        case None => error != 0 && View() == old(View())
        case Some(c) => error == 0 && View() == c
    {
      hide Insert, Copy;
      var room := UnoccupiedCacheSize(host);
      if room < host.size(t) {
        return -1;
      }
      if nrTranslatedInstructions >= MAX_INSTRUCTIONS_TOTRANSLATE {
        return -2;
      }
      var tcOffset := translationCachePtr;
      code := Copy(code, tcOffset, BlockAt(Block(t, []), host.size(t)));
      translationCachePtr := translationCachePtr + host.size(t);
      InsertMapping(Item(guestPc, tcOffset));
      return 0;
    }

    // COMMIT_TRANSLATION; `ok` is false when one of its assertions fails.
    method CommitTranslation(host: Host, guestPc: u32, b: Block) returns (ok: bool)
      requires Valid()
      modifies this, pcMappings
      ensures Valid() && (ok <==> Commit(host, old(View()), guestPc, b).Some?)
      ensures ok ==> Commit(host, old(View()), guestPc, b) == Some(View())
    {
      var error := AddTranslationItem(host, guestPc, b.template);
      if error != 0 {
        return false;
      }
      var item := SearchTranslationItem(guestPc);
      if item == None {
        return false;
      }
      code := Patch(code, pcMappings[item.value].tcOffset, b.params);
      return true;
    }

    // One translator run on the instruction word the blob points at.
    method PrefetchOneInstruction(host: Host, blob: Blob, w: bv32) returns (ok: bool, next: Blob)
      requires Valid()
      modifies this, pcMappings
      ensures Valid() && (ok <==> TranslateOne(host, old(View()), blob, w).Some?)
      ensures ok ==> TranslateOne(host, old(View()), blob, w) == Some((View(), next))
    {
      hide Translate, Commit, Unoccupied, Flushed;
      next := blob;
      var t := Translate(w, blob.next);
      if t == None {
        return false, next;
      }
      var room := UnoccupiedCacheSize(host);
      if host.size(t.value.block.template) > room {
        if blob.flushable {
          FlushTranslationCache();
          next := next.(flushable := false);
        } else {
          next := next.(stop := true);
          return true, next;
        }
      } else {
        next := next.(flushable := false);
      }
      ok := CommitTranslation(host, blob.next, t.value.block);
      if t.value.stop {
        next := next.(stop := true);
      } else {
        next := next.(next := Wrap(blob.next + 4), stop := false);
      }
    }

    method AppendVmmJumper(host: Host)
      requires Valid()
      modifies this
      ensures Valid() && View() == AppendJumper(host, old(View()))
    {
      code := Copy(code, translationCachePtr, Jumper(host.jumper));
      translationCachePtr := translationCachePtr + host.jumper;
    }

    /** The prefetch loop, in place, ends as the recursive definition says, and it does end. */
    method PrefetchInstructions(host: Host, fetch: Fetch, pc: u32) returns (status: Status)
      requires Valid()
      modifies this, pcMappings
      ensures Valid()
      ensures match Prefetch(host, fetch, old(View()), pc)
        case Done(c) => status == Finished && View() == c
        case PageFault(c, va) => status == Faulted(va) && View() == c
        case Abort => status == Aborted
    {
      hide PrefetchLoop, TranslateOne, Find, AppendJumper;
      var blob := Blob(pc, false, true);
      var oldTransPtr := translationCachePtr;
      ghost var goal := PrefetchLoop(host, fetch, View(), blob);
      while true
        invariant Valid() && !blob.stop
        invariant PrefetchLoop(host, fetch, View(), blob) == goal
        decreases blob.flushable, MAX_INSTRUCTIONS_TOTRANSLATE - nrTranslatedInstructions
      {
        LoopUnfolds(host, fetch, View(), blob);
        var item := SearchTranslationItem(blob.next);
        if item.Some? {
          break;
        }
        var word := fetch(blob.next);
        if word == None {
          return Faulted(blob.next);
        }
        var ok, next := PrefetchOneInstruction(host, blob, word.value);
        if !ok {
          return Aborted;
        }
        blob := next;
        if blob.stop {
          break;
        }
      }
      if translationCachePtr != oldTransPtr {
        AppendVmmJumper(host);
      }
      return Finished;
    }
  }

  // One turn of the loop.
  lemma LoopUnfolds(host: Host, fetch: Fetch, c: Cache, blob: Blob)
    ensures PrefetchLoop(host, fetch, c, blob) ==
      if Find(c.index, blob.next).Some? then Done(c)
      else if fetch(blob.next) == None then PageFault(c, blob.next)
      else
        var r := TranslateOne(host, c, blob, fetch(blob.next).value);
        if r == None then Abort
        else if r.value.1.stop then Done(r.value.0)
        else PrefetchLoop(host, fetch, r.value.0, r.value.1)
  {
    hide TranslateOne, Find;
  }
}
