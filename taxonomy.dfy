/**
 * The two pieces of WordPress state the plugin reads and writes: the term
 * table of the "comment_tags" taxonomy (name to term ID) and the
 * relationship table (comment ID to the IDs of its terms).
 */
module Taxonomy {
  import opened Php

  /** COMMENT_TAGGER_TAX: the taxonomy's name. */
  const TaxonomyName: string := "comment_tags"

  /**
   * The term table's invariant: every ID is positive and below the next
   * auto-increment value, and distinct names have distinct IDs.
   */
  ghost predicate StoreInv(ids: map<string, int>, nextId: int)
  {
    && nextId > 0
    && (forall name :: name in ids ==> 0 < ids[name] < nextId)
    && (forall a, b :: a in ids && b in ids && a != b ==> ids[a] != ids[b])
  }

  /** Giving a new name the next ID and moving the counter on keeps the invariant. */
  lemma StoreInvInsert(ids: map<string, int>, nextId: int, name: string)
    requires StoreInv(ids, nextId) && name !in ids
    ensures StoreInv(ids[name := nextId], nextId + 1)
  {
  }

  /** The letter case the database's collation ignores, on ASCII letters. */
  function LowerChar(c: char): (d: char)
    ensures IsTrimChar(d) <==> IsTrimChar(c)
  {
    if 'A' <= c <= 'Z' then (c as int - 'A' as int + 'a' as int) as char else c
  }

  /**
   * How term_exists and wp_insert_term tell names apart: the name is
   * trimmed, and names that differ only in letter case are the same term.
   * Blank names have the blank key.
   */
  function NameKey(name: string): string
  {
    MapSeq(LowerChar, Trim(name))
  }

  /** A name's key is blank exactly when the trimmed name is, and has nothing left to trim. */
  lemma NameKeyTrimmed(name: string)
    ensures NameKey(name) == [] <==> Trim(name) == []
    ensures NameKey(name) == [] || (!IsTrimChar(NameKey(name)[0]) && !IsTrimChar(NameKey(name)[|NameKey(name)| - 1]))
  {
    TrimStripped(name);
  }

  /** A key is its own key: trimming and folding the case again changes nothing. */
  lemma NameKeyIdempotent(name: string)
    ensures NameKey(NameKey(name)) == NameKey(name)
  {
    var k := NameKey(name);
    NameKeyTrimmed(name);
    TrimTrimmed(k);
    LowerAgain(k, Trim(name));
  }

  lemma LowerAgain(k: string, t: string)
    requires k == MapSeq(LowerChar, t)
    ensures MapSeq(LowerChar, k) == k
  {
    forall i | 0 <= i < |k| ensures LowerChar(k[i]) == k[i] {
      assert k[i] == LowerChar(t[i]);
    }
  }

  /** Padding a name with a trim character does not change its key. */
  lemma NameKeyPadded(c: char, name: string)
    requires IsTrimChar(c)
    ensures NameKey([c] + name) == NameKey(name)
  {
    TrimPadded(c, name);
  }

  /**
   * The terms of the taxonomy, keyed by NameKey. `refused` holds the keys
   * wp_insert_term answers with a WP_Error for a cause of WordPress's own
   * (a database failure, a slug clash, ...); a blank name is always refused.
   */
  class TermStore {
    var ids: map<string, int>
    var nextId: int
    const refused: set<string>

    ghost predicate Valid()
      reads this
    {
      StoreInv(ids, nextId)
    }

    constructor (refused: set<string>)
      ensures Valid()
      ensures ids == map[] && nextId == 1 && this.refused == refused
    {
      ids := map[];
      nextId := 1;
      this.refused := refused;
    }

    /**
     * term_exists: the ID of the term whose key is the name's key, if there
     * is one; a blank name finds nothing.
     */
    method Exists(name: string) returns (termId: Option<int>)
      requires Valid()
      ensures termId.Some? <==> NameKey(name) != [] && NameKey(name) in ids
      ensures termId.Some? ==> termId.value == ids[NameKey(name)] && termId.value > 0
    {
      var key := NameKey(name);
      termId := if key != [] && key in ids then Some(ids[key]) else None;
    }

    /**
     * wp_insert_term: a name that is not blank, whose key is new and not
     * refused, is stored under its key with the next ID; any other name is
     * an error and changes nothing.
     */
    method Insert(name: string) returns (termId: Option<int>)
      requires Valid()
      modifies this
      ensures Valid()
      ensures Trim(name) == [] ==> termId.None?
      ensures termId.Some? <==> NameKey(name) != [] && NameKey(name) !in old(ids) && NameKey(name) !in refused
      ensures termId.Some? ==> termId.value == old(nextId) && ids == old(ids)[NameKey(name) := old(nextId)] && nextId == old(nextId) + 1
      ensures termId.None? ==> ids == old(ids) && nextId == old(nextId)
    {
      var key := NameKey(name);
      if key == [] || key in ids || key in refused {
        termId := None;
      } else {
        termId := Some(nextId);
        ids := ids[key := nextId];
        nextId := nextId + 1;
      }
    }
  }

  /** wp_get_object_terms as IDs: the terms of a comment, none when it has no entry. */
  function TermsOf(links: map<int, seq<int>>, commentId: int): seq<int>
  {
    if commentId in links then links[commentId] else []
  }

  /** The relationship table of the taxonomy: comment ID to its term IDs. */
  class CommentTerms {
    var links: map<int, seq<int>>

    constructor ()
      ensures links == map[]
    {
      links := map[];
    }

    /** wp_set_object_terms with `$append = false`: the comment's terms become exactly `termIds`. */
    method SetTerms(commentId: int, termIds: seq<int>)
      modifies this
      ensures links == old(links)[commentId := termIds]
    {
      links := links[commentId := termIds];
    }

    /** wp_delete_object_term_relationships: the comment loses all its terms. */
    method DeleteAll(commentId: int)
      modifies this
      ensures links == old(links) - {commentId}
    {
      links := links - {commentId};
    }
  }
}
