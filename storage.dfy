/**
 * The single-slot prompt store of `src/lib/localStorage.ts`: `savePrompt`,
 * `getPrompt` and `clearPrompt` act on the one key `"currentPrompt"` of the
 * browser's `localStorage`, and swallow whatever the storage backend throws.
 *
 * Whether the backend throws on a given call (quota exceeded, storage
 * disabled) is not something the code decides, so every operation takes it
 * as a parameter `backendThrows`.
 */
module PromptStorage {
  import opened Common

  const CurrentPromptKey := "currentPrompt"

  /** The contents of `localStorage`: string keys to string values. */
  type Items = map<string, string>

  /** `k` is bound to the same value in `a` as in `b`, or absent from both. */
  predicate SameAt(a: Items, b: Items, k: string)
  {
    (k in a <==> k in b) && (k in a ==> a[k] == b[k])
  }

  /** The store after `savePrompt(prompt)`. */
  function Saved(items: Items, prompt: string, backendThrows: bool): (r: Items)
    ensures backendThrows ==> r == items
    ensures !backendThrows ==> CurrentPromptKey in r && r[CurrentPromptKey] == prompt
    ensures forall k :: k != CurrentPromptKey ==> SameAt(r, items, k)
  {
    if backendThrows then items else items[CurrentPromptKey := prompt]
  }

  /** The store after `clearPrompt()`. */
  function Cleared(items: Items, backendThrows: bool): (r: Items)
    ensures backendThrows ==> r == items
    ensures !backendThrows ==> CurrentPromptKey !in r
    ensures forall k :: k != CurrentPromptKey ==> SameAt(r, items, k)
  {
    if backendThrows then items else items - {CurrentPromptKey}
  }

  /** What `getPrompt()` returns; `None` is JavaScript's `null`. */
  function Loaded(items: Items, backendThrows: bool): (r: Option<string>)
    ensures r.Some? <==> !backendThrows && CurrentPromptKey in items
    ensures r.Some? ==> r.value == items[CurrentPromptKey]
  {
    if backendThrows || CurrentPromptKey !in items then None else Some(items[CurrentPromptKey])
  }

  /** The browser's `localStorage`, seen through the three helpers. */
  class Store {
    var items: Items

    constructor (items: Items)
      ensures this.items == items
    {
      this.items := items;
    }

    /** `savePrompt(prompt)`: `setItem`, with a thrown error logged and dropped. */
    method SavePrompt(prompt: string, backendThrows: bool)
      modifies this
      ensures items == Saved(old(items), prompt, backendThrows)
    {
      if !backendThrows {
        items := items[CurrentPromptKey := prompt];
      }
    }

    /** `getPrompt()`: `getItem`, or `null` when the backend throws. */
    method GetPrompt(backendThrows: bool) returns (r: Option<string>)
      ensures r.Some? <==> !backendThrows && CurrentPromptKey in items
      ensures r.Some? ==> r.value == items[CurrentPromptKey]
    {
      if backendThrows {
        r := None;
      } else if CurrentPromptKey in items {
        r := Some(items[CurrentPromptKey]);
      } else {
        r := None;
      }
    }

    /** `clearPrompt()`: `removeItem`, with a thrown error logged and dropped. */
    method ClearPrompt(backendThrows: bool)
      modifies this
      ensures items == Cleared(old(items), backendThrows)
    {
      if !backendThrows {
        items := items - {CurrentPromptKey};
      }
    }
  }

  /** A prompt that was saved is the one read back. */
  lemma SaveThenGet(items: Items, prompt: string)
    ensures Loaded(Saved(items, prompt, false), false) == Some(prompt)
  {
  }

  /** After a clear, reading gives `null`. */
  lemma ClearThenGet(items: Items, backendThrows: bool)
    ensures Loaded(Cleared(items, false), backendThrows) == None
  {
  }

  /** Clearing twice is clearing once, and clearing an empty slot changes nothing. */
  lemma ClearIdempotent(items: Items, throws1: bool, throws2: bool)
    ensures Cleared(Cleared(items, throws1), false) == Cleared(items, false)
    ensures Cleared(Cleared(items, false), throws2) == Cleared(items, false)
    ensures CurrentPromptKey !in items ==> Cleared(items, throws1) == items
  {
  }

  /** The slot keeps no history: a second save replaces the first. */
  lemma SaveOverwrites(items: Items, p: string, q: string, throws1: bool)
    ensures Saved(Saved(items, p, throws1), q, false) == Saved(items, q, false)
  {
  }

  /** A save whose backend throws leaves nothing behind, so the old value is still read. */
  lemma FailedSaveKeepsOld(items: Items, prompt: string)
    ensures Loaded(Saved(items, prompt, true), false) == Loaded(items, false)
  {
  }

  /** The helpers never touch a key other than `"currentPrompt"`. */
  lemma OtherKeysUntouched(items: Items, prompt: string, throws1: bool, throws2: bool, k: string)
    requires k != CurrentPromptKey
    ensures SameAt(Saved(items, prompt, throws1), items, k)
    ensures SameAt(Cleared(items, throws2), items, k)
  {
  }

  /** Save, then get, on one store object: the saved prompt comes back and the store is left as saved. */
  method SaveThenGetOnStore(store: Store, prompt: string) returns (r: Option<string>)
    modifies store
    ensures r == Some(prompt)
    ensures store.items == old(store.items)[CurrentPromptKey := prompt]
  {
    store.SavePrompt(prompt, false);
    r := store.GetPrompt(false);
  }
}
