/** The project record of the portfolio data and the derivations both the catalog page
    and the project card make from it: the URL slug and path, the tag row and the
    description text. */
module Projects {
  import opened Text

  datatype Option<T> = None | Some(value: T)

  /** The `image` field: absent, one image reference, or a list of references. */
  datatype ImageField = NoImage | OneImage(src: string) | ImageList(srcs: seq<string>)

  /** `client`, of which only the feedback text is used (null and absent are both None). */
  datatype Client = Client(feedback: Option<string>)

  /** A project record. Platform, featured flag, rating and live URL are display-only
      and are not part of the model. */
  datatype Project = Project(
    title: string,
    description: Option<string>,
    tags: seq<string>,
    category: string,
    slug: Option<string>,
    image: ImageField,
    client: Option<Client>)

  /** `title.toLowerCase().replace(/\s+/g, "-")`. */
  function DerivedSlug(title: string): (r: string)
    ensures NoSpace(r)
    ensures |r| <= |title|
  {
    HyphenateSpaces(Lower(title))
  }

  /** `project.slug || <derived slug>`: an absent or empty stored slug is falsy. */
  function Slug(p: Project): (r: string)
    ensures p.slug.Some? && p.slug.value != "" ==> r == p.slug.value
    ensures (p.slug.None? || p.slug.value == "") ==> r == DerivedSlug(p.title) && NoSpace(r)
  {
    if p.slug.Some? && p.slug.value != "" then p.slug.value else DerivedSlug(p.title)
  }

  /** A title without whitespace is only lower-cased. */
  lemma DerivedSlugSolidTitle(title: string)
    requires NoSpace(title)
    ensures DerivedSlug(title) == Lower(title)
  {
    HyphenateNoSpace(Lower(title));
  }

  /** A maximal whitespace run of the title becomes one '-'; the parts on either side are
      slugged independently. */
  lemma DerivedSlugMaximalRun(a: string, w: string, b: string)
    requires EndsSolid(a) && StartsSolid(b)
    requires w != [] && AllSpace(w)
    ensures DerivedSlug(a + w + b) == DerivedSlug(a) + "-" + DerivedSlug(b)
  {
    LowerAppend(a + w, b);
    LowerAppend(a, w);
    LowerKeepsSpace(a);
    LowerKeepsSpace(w);
    LowerKeepsSpace(b);
    HyphenateMaximalRun(Lower(a), Lower(w), Lower(b));
  }

  /** Titles that differ only in the length of a whitespace run get the same slug. */
  lemma DerivedSlugRunLength(a: string, w1: string, w2: string, b: string)
    requires w1 != [] && AllSpace(w1)
    requires w2 != [] && AllSpace(w2)
    ensures DerivedSlug(a + w1 + b) == DerivedSlug(a + w2 + b)
  {
    LowerAppend(a + w1, b);
    LowerAppend(a, w1);
    LowerAppend(a + w2, b);
    LowerAppend(a, w2);
    LowerKeepsSpace(w1);
    LowerKeepsSpace(w2);
    HyphenateRunLength(Lower(a), Lower(w1), Lower(w2), Lower(b));
  }

  /** Deriving a slug from a derived slug changes nothing. */
  lemma DerivedSlugIdempotent(title: string)
    ensures DerivedSlug(DerivedSlug(title)) == DerivedSlug(title)
  {
    var s := DerivedSlug(title);
    forall i | 0 <= i < |s| ensures LowerChar(s[i]) == s[i] {
      assert s[i] in s;
      if s[i] != '-' {
        assert s[i] in Lower(title);
        var j :| 0 <= j < |Lower(title)| && Lower(title)[j] == s[i];
      }
    }
    assert Lower(s) == s;
    HyphenateNoSpace(s);
  }

  const ProjectsPrefix: string := "/projects/"

  /** `/projects/${slug}`: the link target of a project. */
  function ProjectPath(p: Project): (r: string)
    ensures |r| == |ProjectsPrefix| + |Slug(p)|
    ensures r[..|ProjectsPrefix|] == ProjectsPrefix
    ensures r[|ProjectsPrefix|..] == Slug(p)
  {
    ProjectsPrefix + Slug(p)
  }

  /** The path segment after the prefix is the slug, so two projects link to the same
      path exactly when their slugs agree. */
  lemma ProjectPathSegment(p: Project, q: Project)
    ensures ProjectPath(p)[|ProjectsPrefix|..] == Slug(p)
    ensures ProjectPath(p) == ProjectPath(q) <==> Slug(p) == Slug(q)
  {
    assert ProjectPath(p)[|ProjectsPrefix|..] == Slug(p);
    assert ProjectPath(q)[|ProjectsPrefix|..] == Slug(q);
  }

  /** How many tags a card shows before the `+N` badge. */
  const MaxShownTags: nat := 3

  /** The tag row: the tags shown, and the number on the `+N` badge when there is one. */
  datatype TagRow = TagRow(shown: seq<string>, more: Option<nat>)

  /** `tags.slice(0, 3)` followed by `+{tags.length - 3}` when `tags.length > 3`. */
  function TagDisplay(tags: seq<string>): (r: TagRow)
    ensures |r.shown| == if |tags| < MaxShownTags then |tags| else MaxShownTags
    ensures r.shown == tags[..|r.shown|]
    ensures r.more.Some? <==> |tags| > MaxShownTags
    ensures r.more.Some? ==> r.more.value > 0
    ensures |r.shown| + (if r.more.Some? then r.more.value else 0) == |tags|
  {
    var shown := if |tags| <= MaxShownTags then tags else tags[..MaxShownTags];
    TagRow(shown, if |tags| > MaxShownTags then Some(|tags| - MaxShownTags) else None)
  }

  /** An optional text that JavaScript treats as truthy: present and non-empty. */
  predicate HasText(t: Option<string>)
  {
    t.Some? && t.value != ""
  }

  const NoDescription: string := "No description available."

  /** `description || client?.feedback || "No description available."`: the first
      non-empty text; search never looks at the feedback. */
  function DescriptionText(p: Project): (r: string)
    ensures r != ""
    ensures HasText(p.description) ==> r == p.description.value
    ensures !HasText(p.description) && p.client.Some? && HasText(p.client.value.feedback) ==>
              r == p.client.value.feedback.value
    ensures !HasText(p.description) && (p.client.None? || !HasText(p.client.value.feedback)) ==>
              r == NoDescription
  {
    if p.description.Some? && p.description.value != "" then p.description.value
    else if p.client.Some? && p.client.value.feedback.Some? && p.client.value.feedback.value != ""
    then p.client.value.feedback.value
    else NoDescription
  }
}
