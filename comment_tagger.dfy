/**
 * The tag resolver and the save/edit/delete handlers of the plugin: posted
 * tokens are split into existing term IDs and new names, new names are
 * found or created in the term table, the two ID lists are merged without
 * duplicates, and the comment's term set is overwritten, cleared or left
 * alone.
 */
module CommentTagger {
  import opened Php
  import opened TagCodec
  import opened Taxonomy

  // ---------------------------------------------------------------------
  // sanitise_comment_terms: find or create
  // ---------------------------------------------------------------------

  /** What sanitise_comment_terms receives: a list of names, or one comma-separated string. */
  datatype RawTerms = Listed(items: seq<string>) | Delimited(text: string)

  /** The names to resolve: the list, or the string split on ',', each passed through esc_attr. */
  function TermNames(raw: RawTerms, escAttr: string -> string): seq<string>
  {
    MapSeq(escAttr, if raw.Listed? then raw.items else Explode(raw.text, ','))
  }

  /** The IDs a resolution returns, and the term table it leaves behind. */
  datatype Resolution = Resolution(termIds: seq<int>, ids: map<string, int>, nextId: int)

  /** The keys of the names, in order. */
  function NameKeys(names: seq<string>): (keys: seq<string>)
    ensures |keys| == |names|
    decreases |names|
  {
    if names == [] then [] else NameKeys(names[..|names| - 1]) + [NameKey(names[|names| - 1])]
  }

  lemma {:induction false} NameKeysAt(names: seq<string>, i: int)
    requires 0 <= i < |names|
    ensures NameKeys(names)[i] == NameKey(names[i])
    decreases |names|
  {
    var init := names[..|names| - 1];
    var last := NameKey(names[|names| - 1]);
    assert NameKeys(names) == NameKeys(init) + [last];
    if i < |init| {
      NameKeysAt(init, i);
      assert init[i] == names[i];
    }
  }

  /** The IDs `m` gives to the names whose keys it holds, in order; blank and unknown names give nothing. */
  function LookupAll(names: seq<string>, m: map<string, int>): (r: seq<int>)
    ensures |r| <= |names|
    decreases |names|
  {
    if names == [] then []
    else
      var front := LookupAll(names[..|names| - 1], m);
      var key := NameKey(names[|names| - 1]);
      if key != [] && key in m then front + [m[key]] else front
  }

  /**
   * The loop of sanitise_comment_terms before array_unique: a name whose key
   * is known yields that term's ID, a blank name or a refused key yields
   * nothing, and any other name is inserted under its key and yields the new ID.
   */
  function FindOrCreate(names: seq<string>, ids: map<string, int>, nextId: int, refused: set<string>): (r: Resolution)
    ensures |r.termIds| <= |names|
    ensures r.nextId >= nextId
    ensures forall k :: k in ids ==> k in r.ids && r.ids[k] == ids[k]
    ensures forall k :: k in r.ids <==> k in ids || (k in NameKeys(names) && k != [] && k !in refused)
    ensures forall k :: k in r.ids && k !in ids ==> nextId <= r.ids[k] < r.nextId
    decreases |names|
  {
    if names == [] then Resolution([], ids, nextId)
    else
      var init := names[..|names| - 1];
      var key := NameKey(names[|names| - 1]);
      var front := FindOrCreate(init, ids, nextId, refused);
      if key != [] && key in front.ids then front.(termIds := front.termIds + [front.ids[key]])
      else if key == [] || key in refused then front
      else Resolution(front.termIds + [front.nextId], front.ids[key := front.nextId], front.nextId + 1)
  }

  /** Find or create keeps the term table's invariant, and every ID it returns is a term's ID. */
  lemma {:induction false} FindOrCreateKeepsInv(names: seq<string>, ids: map<string, int>, nextId: int, refused: set<string>)
    ensures var r := FindOrCreate(names, ids, nextId, refused);
      StoreInv(ids, nextId) ==>
        && StoreInv(r.ids, r.nextId)
        && forall i :: 0 <= i < |r.termIds| ==> 0 < r.termIds[i] < r.nextId
    decreases |names|
  {
    if names != [] {
      var init, key := names[..|names| - 1], NameKey(names[|names| - 1]);
      var front := FindOrCreate(init, ids, nextId, refused);
      FindOrCreateKeepsInv(init, ids, nextId, refused);
      if StoreInv(ids, nextId) && key != [] && key !in front.ids && key !in refused {
        StoreInvInsert(front.ids, front.nextId, key);
      }
    }
  }

  /** The result of sanitise_comment_terms: find or create, then array_unique. */
  function Sanitised(raw: RawTerms, escAttr: string -> string, ids: map<string, int>, nextId: int, refused: set<string>): (r: Resolution)
    ensures NoDuplicates(r.termIds)
    ensures |r.termIds| <= |TermNames(raw, escAttr)|
    ensures StoreInv(ids, nextId) ==> StoreInv(r.ids, r.nextId)
    ensures StoreInv(ids, nextId) ==> forall i :: 0 <= i < |r.termIds| ==> r.termIds[i] > 0
  {
    var found := FindOrCreate(TermNames(raw, escAttr), ids, nextId, refused);
    FindOrCreateKeepsInv(TermNames(raw, escAttr), ids, nextId, refused);
    found.(termIds := Unique(found.termIds))
  }

  /** sanitise_comment_terms, over the term table `store`. */
  method SanitiseCommentTerms(store: TermStore, raw: RawTerms, escAttr: string -> string) returns (termIds: seq<int>)
    requires store.Valid()
    modifies store
    ensures store.Valid()
    ensures Resolution(termIds, store.ids, store.nextId) == Sanitised(raw, escAttr, old(store.ids), old(store.nextId), store.refused)
  {
    var terms := if raw.Listed? then MapSeq(escAttr, raw.items) else MapSeq(escAttr, Explode(raw.text, ','));
    ghost var ids0, next0 := store.ids, store.nextId;
    termIds := [];
    for i := 0 to |terms|
      invariant store.Valid()
      invariant Resolution(termIds, store.ids, store.nextId) == FindOrCreate(terms[..i], ids0, next0, store.refused)
    {
      assert terms[..i + 1][..i] == terms[..i];
      var existing := store.Exists(terms[i]);
      if existing.Some? {
        termIds := termIds + [existing.value];
      } else {
        var newTerm := store.Insert(terms[i]);
        if newTerm.Some? {
          termIds := termIds + [newTerm.value];
        }
      }
    }
    assert terms[..|terms|] == terms;
    if termIds != [] {
      termIds := Unique(termIds);
    }
  }

  lemma {:induction false} LookupAllAgree(names: seq<string>, m1: map<string, int>, m2: map<string, int>)
    requires forall i :: 0 <= i < |names| && NameKey(names[i]) != [] ==>
      (NameKey(names[i]) in m1 <==> NameKey(names[i]) in m2)
    requires forall i :: 0 <= i < |names| && NameKey(names[i]) != [] && NameKey(names[i]) in m1 ==>
      m1[NameKey(names[i])] == m2[NameKey(names[i])]
    ensures LookupAll(names, m1) == LookupAll(names, m2)
    decreases |names|
  {
    if names != [] {
      var init := names[..|names| - 1];
      assert forall i :: 0 <= i < |init| ==> init[i] == names[i];
      LookupAllAgree(init, m1, m2);
    }
  }

  /** Each name yields the ID its key has in the resulting table; a blank name or a refused new key yields nothing. */
  lemma {:induction false} FindOrCreateLooksUp(names: seq<string>, ids: map<string, int>, nextId: int, refused: set<string>)
    ensures var r := FindOrCreate(names, ids, nextId, refused);
      r.termIds == LookupAll(names, r.ids)
    decreases |names|
  {
    if names != [] {
      var init := names[..|names| - 1];
      var key := NameKey(names[|names| - 1]);
      var front := FindOrCreate(init, ids, nextId, refused);
      var r := FindOrCreate(names, ids, nextId, refused);
      FindOrCreateLooksUp(init, ids, nextId, refused);
      forall i | 0 <= i < |init| && NameKey(init[i]) != []
        ensures NameKey(init[i]) in front.ids <==> NameKey(init[i]) in r.ids
        ensures NameKey(init[i]) in front.ids ==> front.ids[NameKey(init[i])] == r.ids[NameKey(init[i])]
      {
        NameKeysAt(init, i);
      }
      LookupAllAgree(init, front.ids, r.ids);
    }
  }

  /** When every key is blank, known or refused, nothing is created and each known key yields its ID. */
  lemma {:induction false} FindOrCreateKnown(names: seq<string>, ids: map<string, int>, nextId: int, refused: set<string>)
    requires forall i :: 0 <= i < |names| ==>
      NameKey(names[i]) == [] || NameKey(names[i]) in ids || NameKey(names[i]) in refused
    ensures FindOrCreate(names, ids, nextId, refused) == Resolution(LookupAll(names, ids), ids, nextId)
    decreases |names|
  {
    if names != [] {
      var init := names[..|names| - 1];
      assert forall i :: 0 <= i < |init| ==> init[i] == names[i];
      FindOrCreateKnown(init, ids, nextId, refused);
    }
  }

  /** Running the loop again on the same names creates nothing and yields the same IDs. */
  lemma FindOrCreateIdempotent(names: seq<string>, ids: map<string, int>, nextId: int, refused: set<string>)
    ensures var first := FindOrCreate(names, ids, nextId, refused);
      FindOrCreate(names, first.ids, first.nextId, refused) == first
  {
    var first := FindOrCreate(names, ids, nextId, refused);
    FindOrCreateLooksUp(names, ids, nextId, refused);
    forall i | 0 <= i < |names| ensures NameKeys(names)[i] == NameKey(names[i]) {
      NameKeysAt(names, i);
    }
    FindOrCreateKnown(names, first.ids, first.nextId, refused);
  }

  /** Only the names' keys matter: names that differ in padding or letter case resolve alike. */
  lemma {:induction false} FindOrCreateKeysOnly(a: seq<string>, b: seq<string>, ids: map<string, int>, nextId: int, refused: set<string>)
    requires NameKeys(a) == NameKeys(b)
    ensures FindOrCreate(a, ids, nextId, refused) == FindOrCreate(b, ids, nextId, refused)
    decreases |a|
  {
    if a != [] {
      var a', b' := a[..|a| - 1], b[..|b| - 1];
      assert NameKeys(a') == NameKeys(a)[..|a'|] == NameKeys(b)[..|b'|] == NameKeys(b');
      FindOrCreateKeysOnly(a', b', ids, nextId, refused);
    }
  }

  /**
   * The meta box shows the comment's tags joined by ", ", so every name but
   * the first comes back with a space in front; those names still find
   * their own terms.
   */
  lemma MetaBoxSpacing(a: seq<string>, b: seq<string>, ids: map<string, int>, nextId: int, refused: set<string>)
    requires |a| == |b|
    requires forall i :: 0 <= i < |a| ==> a[i] == b[i] || a[i] == " " + b[i]
    ensures FindOrCreate(a, ids, nextId, refused) == FindOrCreate(b, ids, nextId, refused)
  {
    forall i | 0 <= i < |a| ensures NameKeys(a)[i] == NameKeys(b)[i] {
      NameKeysAt(a, i);
      NameKeysAt(b, i);
      if a[i] != b[i] {
        NameKeyPadded(' ', b[i]);
      }
    }
    FindOrCreateKeysOnly(a, b, ids, nextId, refused);
  }

  /** Blank names (an empty `newtag` field, say) resolve to nothing and create nothing. */
  lemma {:induction false} BlankNamesCreateNothing(names: seq<string>, ids: map<string, int>, nextId: int, refused: set<string>)
    requires forall i :: 0 <= i < |names| ==> Trim(names[i]) == []
    ensures FindOrCreate(names, ids, nextId, refused) == Resolution([], ids, nextId)
    decreases |names|
  {
    if names != [] {
      var init := names[..|names| - 1];
      assert forall i :: 0 <= i < |init| ==> init[i] == names[i];
      BlankNamesCreateNothing(init, ids, nextId, refused);
    }
  }

  /**
   * The meta box always posts `newtag`, empty unless the user typed a tag:
   * an empty field resolves to no ID and leaves the term table as it was.
   */
  lemma EmptyNewTag(escAttr: string -> string, ids: map<string, int>, nextId: int, refused: set<string>)
    requires escAttr("") == ""
    ensures Sanitised(Delimited(""), escAttr, ids, nextId, refused) == Resolution([], ids, nextId)
  {
    var names := TermNames(Delimited(""), escAttr);
    assert names == [""];
    BlankNamesCreateNothing(names, ids, nextId, refused);
  }

  /** sanitise_comment_terms is idempotent: a second call creates no term and returns the same IDs. */
  lemma SanitisedIdempotent(raw: RawTerms, escAttr: string -> string, ids: map<string, int>, nextId: int, refused: set<string>)
    ensures var first := Sanitised(raw, escAttr, ids, nextId, refused);
      Sanitised(raw, escAttr, first.ids, first.nextId, refused) == first
  {
    FindOrCreateIdempotent(TermNames(raw, escAttr), ids, nextId, refused);
  }

  // ---------------------------------------------------------------------
  // merging and the apply decision
  // ---------------------------------------------------------------------

  /** `array_unique(array_merge($existing_term_ids, $new_term_ids))`. */
  function Merge(existing: seq<int>, created: seq<int>): (r: seq<int>)
    ensures NoDuplicates(r)
    ensures forall i :: 0 <= i < |r| ==> r[i] in existing || r[i] in created
    ensures forall i :: 0 <= i < |existing| ==> existing[i] in r
    ensures forall i :: 0 <= i < |created| ==> created[i] in r
    ensures |Unique(existing)| <= |r| && r[..|Unique(existing)|] == Unique(existing)
    ensures forall i, j :: 0 <= i < j < |r| ==> IndexOf(existing + created, r[i]) < IndexOf(existing + created, r[j])
  {
    MergeFacts(existing, created);
    Unique(existing + created)
  }

  lemma MergeFacts(existing: seq<int>, created: seq<int>)
    ensures var r := Unique(existing + created);
      && (forall i :: 0 <= i < |r| ==> r[i] in existing || r[i] in created)
      && (forall i :: 0 <= i < |existing| ==> existing[i] in r)
      && (forall i :: 0 <= i < |created| ==> created[i] in r)
      && |Unique(existing)| <= |r| && r[..|Unique(existing)|] == Unique(existing)
      && forall i, j :: 0 <= i < j < |r| ==> IndexOf(existing + created, r[i]) < IndexOf(existing + created, r[j])
  {
    var s := existing + created;
    assert forall i :: 0 <= i < |existing| ==> existing[i] == s[i];
    assert forall i :: 0 <= i < |created| ==> created[i] == s[|existing| + i];
    UniquePrefix(existing, created);
    UniqueFirstOccurrenceOrder(s);
  }

  /** What a handler does to the comment's term set. */
  datatype Action = Keep | Clear | Overwrite(termIds: seq<int>)

  /** intercept_comment_save: overwrite when some ID resolved, otherwise leave the tags alone. */
  function SaveAction(termIds: seq<int>): (a: Action)
    ensures a != Clear
    ensures a == Keep <==> termIds == []
    ensures a.Overwrite? ==> a.termIds == termIds
  {
    if termIds != [] then Overwrite(termIds) else Keep
  }

  /** update_comment_terms and edit_comment_terms: overwrite, or clear when nothing resolved. */
  function EditAction(termIds: seq<int>): (a: Action)
    ensures a != Keep
    ensures a == Clear <==> termIds == []
    ensures a.Overwrite? ==> a.termIds == termIds
  {
    if termIds != [] then Overwrite(termIds) else Clear
  }

  /** The relationship table after an action on one comment. */
  function Apply(links: map<int, seq<int>>, commentId: int, a: Action): (r: map<int, seq<int>>)
    ensures forall c :: c != commentId ==> (c in r <==> c in links) && TermsOf(r, c) == TermsOf(links, c)
    ensures a == Keep ==> TermsOf(r, commentId) == TermsOf(links, commentId)
    ensures a == Clear ==> TermsOf(r, commentId) == []
    ensures a.Overwrite? ==> TermsOf(r, commentId) == a.termIds
  {
    match a
    case Keep => links
    case Clear => links - {commentId}
    case Overwrite(termIds) => links[commentId := termIds]
  }

  // ---------------------------------------------------------------------
  // the token resolver shared by the save and edit handlers
  // ---------------------------------------------------------------------

  /**
   * Parse the tokens, find or create the new names (only when there are
   * some), and merge the existing IDs before the created ones.
   */
  function TokenResolution(tokens: seq<string>, escAttr: string -> string, ids: map<string, int>, nextId: int, refused: set<string>): (r: Resolution)
    ensures NoDuplicates(r.termIds)
    ensures forall i :: 0 <= i < |ExistingIds(tokens)| ==> ExistingIds(tokens)[i] in r.termIds
    ensures StoreInv(ids, nextId) ==> StoreInv(r.ids, r.nextId)
    ensures StoreInv(ids, nextId) ==> forall i :: 0 <= i < |r.termIds| ==> r.termIds[i] > 0
  {
    var names := NewNames(tokens);
    var created := if names == [] then Resolution([], ids, nextId) else Sanitised(Listed(names), escAttr, ids, nextId, refused);
    created.(termIds := Merge(ExistingIds(tokens), created.termIds))
  }

  /** The parse, resolve and merge steps of intercept_comment_save and edit_comment_terms. */
  method ResolveTokens(store: TermStore, tokens: seq<string>, escAttr: string -> string) returns (termIds: seq<int>)
    requires store.Valid()
    modifies store
    ensures store.Valid()
    ensures Resolution(termIds, store.ids, store.nextId) == TokenResolution(tokens, escAttr, old(store.ids), old(store.nextId), store.refused)
  {
    var existing, names := ParseTokens(tokens);
    var created: seq<int> := [];
    if |names| > 0 {
      created := SanitiseCommentTerms(store, Listed(names), escAttr);
    }
    termIds := Merge(existing, created);
  }

  /** Posting back the picker's own option values creates no term and yields exactly those IDs, once each. */
  lemma PickerValuesResolve(termIds: seq<int>, escAttr: string -> string, ids: map<string, int>, nextId: int, refused: set<string>)
    requires forall i :: 0 <= i < |termIds| ==> 0 < termIds[i] <= PhpIntMax
    ensures TokenResolution(OptionValues(termIds), escAttr, ids, nextId, refused) == Resolution(Unique(termIds), ids, nextId)
  {
    ParseOptionValues(termIds);
    NothingToCreate(OptionValues(termIds), escAttr, ids, nextId, refused);
    MergeNothing(termIds);
  }

  /** Tokens without new names leave the table alone and resolve to their IDs merged with nothing. */
  lemma NothingToCreate(tokens: seq<string>, escAttr: string -> string, ids: map<string, int>, nextId: int, refused: set<string>)
    requires NewNames(tokens) == []
    ensures TokenResolution(tokens, escAttr, ids, nextId, refused) == Resolution(Merge(ExistingIds(tokens), []), ids, nextId)
  {
  }

  lemma MergeNothing(existing: seq<int>)
    ensures Merge(existing, []) == Unique(existing)
  {
    assert existing + [] == existing;
  }

  /** Submitting the same tokens twice creates nothing the second time and yields the same IDs. */
  lemma TokenResolutionIdempotent(tokens: seq<string>, escAttr: string -> string, ids: map<string, int>, nextId: int, refused: set<string>)
    ensures var first := TokenResolution(tokens, escAttr, ids, nextId, refused);
      TokenResolution(tokens, escAttr, first.ids, first.nextId, refused) == first
  {
    if NewNames(tokens) != [] {
      SanitisedIdempotent(Listed(NewNames(tokens)), escAttr, ids, nextId, refused);
    }
  }

  /**
   * Tokens that are all dropped resolve to nothing: the save handler then
   * keeps the comment's tags, the edit handler clears them.
   */
  lemma {:induction false} DroppedTokens(tokens: seq<string>, escAttr: string -> string, ids: map<string, int>, nextId: int, refused: set<string>, links: map<int, seq<int>>, commentId: int)
    requires forall i :: 0 <= i < |tokens| ==> Classify(tokens[i]) == Dropped
    ensures TokenResolution(tokens, escAttr, ids, nextId, refused) == Resolution([], ids, nextId)
    ensures Apply(links, commentId, SaveAction([])) == links
    ensures TermsOf(Apply(links, commentId, EditAction([])), commentId) == []
    decreases |tokens|
  {
    if tokens != [] {
      DroppedTokens(tokens[..|tokens| - 1], escAttr, ids, nextId, refused, links, commentId);
    }
  }

  // ---------------------------------------------------------------------
  // the handlers
  // ---------------------------------------------------------------------

  /** `$_POST['comment_tagger_tags']`: absent, a single value, or an array of values. */
  datatype PostField = Missing | Scalar(value: string) | Items(items: seq<string>)

  /**
   * intercept_comment_save: bails out unless the tags field is a non-empty
   * array; otherwise sanitises each token, resolves them and overwrites the
   * comment's terms when some ID resolved.
   */
  method InterceptCommentSave(store: TermStore, rels: CommentTerms, commentId: int, posted: PostField,
                              sanitize: string -> string, escAttr: string -> string)
    requires store.Valid()
    modifies store, rels
    ensures store.Valid()
    ensures !(posted.Items? && posted.items != []) ==> unchanged(store) && unchanged(rels)
    ensures posted.Items? && posted.items != [] ==>
      var r := TokenResolution(MapSeq(sanitize, posted.items), escAttr, old(store.ids), old(store.nextId), store.refused);
      && store.ids == r.ids && store.nextId == r.nextId
      && rels.links == Apply(old(rels.links), commentId, SaveAction(r.termIds))
  {
    if posted == Missing {
      return;
    }
    if !posted.Items? {
      return;
    }
    if |posted.items| == 0 {
      return;
    }
    var tags := MapSeq(sanitize, posted.items);
    var termIds := ResolveTokens(store, tags, escAttr);
    if termIds != [] {
      rels.SetTerms(commentId, termIds);
    }
  }

  /** sanitise_comment_terms on a field that may be absent (then no IDs and no change). */
  function SanitisedField(raw: Option<RawTerms>, escAttr: string -> string, ids: map<string, int>, nextId: int, refused: set<string>): Resolution
  {
    if raw.Some? then Sanitised(raw.value, escAttr, ids, nextId, refused) else Resolution([], ids, nextId)
  }

  /**
   * The outcome of update_comment_terms: the names of `tax_input` and then
   * those of `newtag` are found or created, and the two ID lists merged.
   */
  function UpdateResolution(taxInput: Option<RawTerms>, newTag: Option<RawTerms>, escAttr: string -> string,
                            ids: map<string, int>, nextId: int, refused: set<string>): (r: Resolution)
    ensures NoDuplicates(r.termIds)
    ensures StoreInv(ids, nextId) ==> StoreInv(r.ids, r.nextId)
    ensures StoreInv(ids, nextId) ==> forall i :: 0 <= i < |r.termIds| ==> r.termIds[i] > 0
  {
    var first := SanitisedField(taxInput, escAttr, ids, nextId, refused);
    var second := SanitisedField(newTag, escAttr, first.ids, first.nextId, refused);
    second.(termIds := Merge(first.termIds, second.termIds))
  }

  /**
   * update_comment_terms (the admin meta box): needs the nonce and the
   * capability; overwrites the comment's terms, or clears them when no ID
   * resolved.
   */
  method UpdateCommentTerms(store: TermStore, rels: CommentTerms, commentId: int, hasNonce: bool, canAssign: bool,
                            taxInput: Option<RawTerms>, newTag: Option<RawTerms>, escAttr: string -> string)
    requires store.Valid()
    modifies store, rels
    ensures store.Valid()
    ensures !(hasNonce && canAssign) ==> unchanged(store) && unchanged(rels)
    ensures hasNonce && canAssign ==>
      var r := UpdateResolution(taxInput, newTag, escAttr, old(store.ids), old(store.nextId), store.refused);
      && store.ids == r.ids && store.nextId == r.nextId
      && rels.links == Apply(old(rels.links), commentId, EditAction(r.termIds))
  {
    if !hasNonce {
      return;
    }
    if !canAssign {
      return;
    }
    var existingIds: seq<int> := [];
    var newIds: seq<int> := [];
    if taxInput.Some? {
      existingIds := SanitiseCommentTerms(store, taxInput.value, escAttr);
    }
    if newTag.Some? {
      newIds := SanitiseCommentTerms(store, newTag.value, escAttr);
    }
    var termIds := Merge(existingIds, newIds);
    if termIds != [] {
      rels.SetTerms(commentId, termIds);
    } else {
      DeleteCommentTerms(rels, commentId);
    }
  }

  /**
   * What filter_input with FILTER_REQUIRE_ARRAY leaves to parse, after
   * sanitize_text_field: the array's tokens, or none for an absent or scalar field.
   */
  function PostedTokens(posted: PostField, sanitize: string -> string): seq<string>
  {
    if posted.Items? then MapSeq(sanitize, posted.items) else []
  }

  /**
   * edit_comment_terms (the AJAX edit): needs the nonce and the capability;
   * overwrites the comment's terms, or clears them when no ID resolved.
   */
  method EditCommentTerms(store: TermStore, rels: CommentTerms, commentId: int, hasNonce: bool, canAssign: bool,
                          posted: PostField, sanitize: string -> string, escAttr: string -> string)
    requires store.Valid()
    modifies store, rels
    ensures store.Valid()
    ensures !(hasNonce && canAssign) ==> unchanged(store) && unchanged(rels)
    ensures hasNonce && canAssign ==>
      var r := TokenResolution(PostedTokens(posted, sanitize), escAttr, old(store.ids), old(store.nextId), store.refused);
      && store.ids == r.ids && store.nextId == r.nextId
      && rels.links == Apply(old(rels.links), commentId, EditAction(r.termIds))
  {
    if !hasNonce {
      return;
    }
    if !canAssign {
      return;
    }
    var tags: seq<string> := [];
    if posted.Items? && posted.items != [] {
      tags := MapSeq(sanitize, posted.items);
    }
    var termIds := ResolveTokens(store, tags, escAttr);
    if termIds != [] {
      rels.SetTerms(commentId, termIds);
    } else {
      DeleteCommentTerms(rels, commentId);
    }
  }

  /** delete_comment_terms: the comment loses all its terms; no other comment changes. */
  method DeleteCommentTerms(rels: CommentTerms, commentId: int)
    modifies rels
    ensures rels.links == Apply(old(rels.links), commentId, Clear)
  {
    rels.DeleteAll(commentId);
  }
}
