/**
 * The plugin's pure output transforms: the tag block put before a comment's
 * text, the AJAX comment-data filters, the terms-table column, the
 * capability mapping and the admin parent-menu fix.
 */
module Display {
  import opened Php
  import opened TagCodec
  import opened Taxonomy

  /** A term as wp_get_object_terms returns it: its ID and its name. */
  datatype Term = Term(termId: int, name: string)

  /** The block a comment without tags gets. */
  const Placeholder: string := "<div class=\"comment_tagger_tags\"></div>\n\n"

  /** One tag: a span around the link to the term's archive (get_term_link is `link`). */
  function TagSpan(t: Term, link: Term -> string, escHtml: string -> string): string
  {
    "<span class=\"comment_tagger_tag\">"
      + "<a class=\"comment_tagger_tag_link\" href=\"" + link(t) + "\">" + escHtml(t.name) + "</a>"
      + "</span>"
  }

  function TagSpans(terms: seq<Term>, link: Term -> string, escHtml: string -> string): seq<string>
  {
    MapSeq((t: Term) => TagSpan(t, link, escHtml), terms)
  }

  /** The block front_end_tags puts before the text: the spans joined by single spaces, or the placeholder. */
  function TagsMarkup(terms: seq<Term>, link: Term -> string, escHtml: string -> string, translate: string -> string): string
  {
    if |terms| > 0 then
      "<div class=\"comment_tagger_tags\">" + "<p>" + translate("Tagged: ")
        + Implode(" ", TagSpans(terms, link, escHtml)) + "</p>" + "</div>" + "\n\n"
    else Placeholder
  }

  /**
   * front_end_tags: without a comment ID the text comes back unchanged;
   * otherwise the comment's tag block (`terms` are its terms) is put before it.
   */
  method FrontEndTags(text: string, commentId: Option<int>, terms: seq<Term>,
                      link: Term -> string, escHtml: string -> string, translate: string -> string) returns (r: string)
    ensures commentId.None? ==> r == text
    ensures commentId.Some? ==> r == TagsMarkup(terms, link, escHtml, translate) + text
    ensures commentId.Some? && terms == [] ==> r == Placeholder + text
    ensures commentId.Some? && terms != [] ==> |r| > |text| && r[|r| - |text|..] == text
  {
    if commentId.None? {
      return text;
    }
    var tags: string;
    if |terms| > 0 {
      var tagList: seq<string> := [];
      for i := 0 to |terms|
        invariant tagList == TagSpans(terms[..i], link, escHtml)
      {
        var termHref := link(terms[i]);
        var termLink := "<a class=\"comment_tagger_tag_link\" href=\"" + termHref + "\">" + escHtml(terms[i].name) + "</a>";
        var span := "<span class=\"comment_tagger_tag\">" + termLink + "</span>";
        assert span == TagSpan(terms[i], link, escHtml);
        assert TagSpans(terms[..i + 1], link, escHtml) == TagSpans(terms[..i], link, escHtml) + [span];
        tagList := tagList + [span];
      }
      assert terms[..|terms|] == terms;
      tags := "<div class=\"comment_tagger_tags\">" + "<p>" + translate("Tagged: ") + Implode(" ", tagList) + "</p>" + "</div>" + "\n\n";
    } else {
      tags := Placeholder;
    }
    r := tags + text;
  }

  /** One entry of the tag list the AJAX filter returns. */
  datatype TagOption = TagOption(id: string, name: string)

  /** The values of the comment-data array the AJAX filters see. */
  datatype Value = Null | Number(n: int) | Text(s: string) | Options(tags: seq<TagOption>)

  /** PHP's isset on an array entry: present and not null. */
  predicate IsSet(data: Assoc<Value>, k: string)
  {
    Get(data, k).Some? && Get(data, k).value != Null
  }

  /** The entries of `comment_tagger_tags`: each term's option value and name, in term order. */
  function TagOptions(terms: seq<Term>): (opts: seq<TagOption>)
    ensures |opts| == |terms|
  {
    MapSeq((t: Term) => TagOption(OptionValue(t.termId), t.name), terms)
  }

  /** The IDs the AJAX filter hands the picker decode back to the comment's terms when posted. */
  lemma TagOptionsDecode(terms: seq<Term>)
    requires forall i :: 0 <= i < |terms| ==> 0 < terms[i].termId <= PhpIntMax
    ensures forall i :: 0 <= i < |terms| ==>
      TagOptions(terms)[i].name == terms[i].name && Classify(TagOptions(terms)[i].id) == Existing(terms[i].termId)
  {
    forall i | 0 <= i < |terms|
      ensures Classify(TagOptions(terms)[i].id) == Existing(terms[i].termId)
    {
      OptionValueRoundTrip(terms[i].termId);
    }
  }

  /** The keys the AJAX filters set. */
  const TagsKey: string := "comment_tagger_tags"
  const MarkupKey: string := "comment_tagger_markup"

  /**
   * filter_ajax_get_comment: unchanged without an `id` or when the comment
   * has no terms; otherwise only `comment_tagger_tags` is set.
   */
  method FilterAjaxGetComment(data: Assoc<Value>, terms: seq<Term>) returns (r: Assoc<Value>)
    ensures !IsSet(data, "id") || terms == [] ==> r == data
    ensures IsSet(data, "id") && terms != [] ==>
      && Get(r, TagsKey) == Some(Options(TagOptions(terms)))
      && (forall k :: k != TagsKey ==> Get(r, k) == Get(data, k))
      && r == Put(data, TagsKey, Options(TagOptions(terms)))
  {
    if !IsSet(data, "id") {
      return data;
    }
    if |terms| == 0 {
      return data;
    }
    var termIds: seq<TagOption> := [];
    for i := 0 to |terms|
      invariant termIds == TagOptions(terms[..i])
    {
      termIds := termIds + [TagOption(Prefix + "-" + IntString(terms[i].termId), terms[i].name)];
    }
    assert terms[..|terms|] == terms;
    r := Put(data, TagsKey, Options(termIds));
  }

  /**
   * filter_ajax_edited_comment: unchanged without an `id`; otherwise the tag
   * list of filter_ajax_get_comment plus `comment_tagger_markup`, the tag
   * block of the comment get_comment returns (`commentId`), and nothing else.
   */
  method FilterAjaxEditedComment(data: Assoc<Value>, terms: seq<Term>, commentId: Option<int>,
                                 link: Term -> string, escHtml: string -> string, translate: string -> string)
    returns (r: Assoc<Value>)
    ensures !IsSet(data, "id") ==> r == data
    ensures IsSet(data, "id") ==>
      Get(r, MarkupKey) == Some(Text(if commentId.Some? then TagsMarkup(terms, link, escHtml, translate) else ""))
    ensures IsSet(data, "id") ==>
      Get(r, TagsKey) == if terms == [] then Get(data, TagsKey) else Some(Options(TagOptions(terms)))
    ensures IsSet(data, "id") ==>
      forall k :: k != MarkupKey && k != TagsKey ==> Get(r, k) == Get(data, k)
  {
    if !IsSet(data, "id") {
      return data;
    }
    var withTags := FilterAjaxGetComment(data, terms);
    assert Get(withTags, TagsKey) == if terms == [] then Get(data, TagsKey) else Some(Options(TagOptions(terms)));
    assert forall k :: k != TagsKey ==> Get(withTags, k) == Get(data, k);
    var markup := FrontEndTags("", commentId, terms, link, escHtml, translate);
    assert commentId.Some? ==> markup == TagsMarkup(terms, link, escHtml, translate);
    assert MarkupKey != TagsKey by {
      assert MarkupKey[15] != TagsKey[15];
    }
    r := Put(withTags, MarkupKey, Text(markup));
    PutBeside(data, withTags, MarkupKey, Text(markup), TagsKey);
  }

  /**
   * Setting key `k` in an array that differs from `a` at most at key `j`
   * gives an array that differs from `a` at most at `k` and `j`.
   */
  lemma PutBeside<V>(a: Assoc<V>, b: Assoc<V>, k: string, v: V, j: string)
    requires k != j
    requires forall k' :: k' != j ==> Get(b, k') == Get(a, k')
    ensures Get(Put(b, k, v), k) == Some(v)
    ensures Get(Put(b, k, v), j) == Get(b, j)
    ensures forall k' :: k' != k && k' != j ==> Get(Put(b, k, v), k') == Get(a, k')
  {
  }

  /** set_comment_column: the "posts" column goes, a "comments" column is set. */
  function SetCommentColumn(columns: Assoc<string>, translate: string -> string): (r: Assoc<string>)
    ensures Get(r, "posts") == None
    ensures Get(r, "comments") == Some(translate("Comments"))
    ensures forall k :: k != "posts" && k != "comments" ==> Get(r, k) == Get(columns, k)
    ensures var kept := Without(Keys(columns), "posts");
      Keys(r) == if "comments" in kept then kept else kept + ["comments"]
  {
    Put(Unset(columns, "posts"), "comments", translate("Comments"))
  }

  /** The capability enable_comment_terms answers for. */
  const AssignCap: string := "assign_" + TaxonomyName

  /**
   * enable_comment_terms: the capability to assign comment tags needs only
   * "exist"; every other capability query is left as it was.
   */
  function EnableCommentTerms(caps: seq<string>, cap: string, userId: int, args: seq<string>): (r: seq<string>)
    ensures cap == "assign_comment_tags" ==> r == ["exist"]
    ensures cap != "assign_comment_tags" ==> r == caps
  {
    if AssignCap != cap then caps else ["exist"]
  }

  /** PHP's empty() on a string. */
  predicate PhpEmpty(s: string)
  {
    s == "" || s == "0"
  }

  /**
   * parent_menu: on the comment-tags screen of edit-tags.php the Comments
   * menu is highlighted; elsewhere the parent is left alone. `taxonomy` is
   * `$_GET['taxonomy']` when it is a string, `pagenow` the global `$pagenow`.
   */
  function ParentMenu(parent: string, taxonomy: Option<string>, pagenow: string): (r: string)
    ensures taxonomy == Some("comment_tags") && pagenow == "edit-tags.php" ==> r == "edit-comments.php"
    ensures !(taxonomy == Some("comment_tags") && pagenow == "edit-tags.php") ==> r == parent
  {
    if taxonomy.Some? && !PhpEmpty(taxonomy.value) && taxonomy.value == TaxonomyName && pagenow == "edit-tags.php" then
      "edit-comments.php"
    else parent
  }
}
