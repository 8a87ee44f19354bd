/** The project card: its image slider with a wrap-around cursor, the dot indicator,
    the link target and the tag row. */
module Card {
  import opened Text
  import opened Projects

  /** `Array.isArray(image) ? image : (image ? [image] : [])`: a list is kept as it is,
      a non-empty reference becomes a one-element list, anything else the empty list. */
  function Images(field: ImageField): (r: seq<string>)
    ensures field.ImageList? ==> r == field.srcs
    ensures field.OneImage? && field.src != "" ==> r == [field.src]
    ensures field.NoImage? || (field.OneImage? && field.src == "") ==> r == []
  {
    match field
    case ImageList(srcs) => srcs
    case OneImage(src) => if src != "" then [src] else []
    case NoImage => []
  }

  /** JavaScript's `a % n` for a positive divisor: the remainder takes the sign of a
      (truncating division), unlike Dafny's Euclidean `%`. */
  function JsRem(a: int, n: int): (r: int)
    requires n > 0
    ensures a >= 0 ==> 0 <= r < n
    ensures a < 0 ==> -n < r <= 0
    ensures a - r == (if a >= 0 then a / n else -((-a) / n)) * n
  {
    JsRemQuotient(a, n);
    if a >= 0 then a % n else -((-a) % n)
  }

  /** Euclidean division on the magnitude, which is what truncating division sees. */
  lemma JsRemQuotient(a: int, n: int)
    requires n > 0
    ensures a >= 0 ==> a == (a / n) * n + a % n
    ensures a < 0 ==> -a == ((-a) / n) * n + (-a) % n
  {
    if a < 0 {
      var b := -a;
      assert b == (b / n) * n + b % n;
    } else {
      assert a == (a / n) * n + a % n;
    }
  }

  /** On 0..n the remainder only wraps n itself to 0. */
  lemma JsRemOneRound(a: int, n: int)
    requires n > 0
    ensures 0 <= a < n ==> JsRem(a, n) == a
    ensures a == n ==> JsRem(a, n) == 0
    ensures n <= a < 2 * n ==> JsRem(a, n) == a - n
  {
    if 0 <= a < n {
      ModBelow(a, n);
    } else if n <= a < 2 * n {
      ModOneOver(a, n);
    }
  }

  lemma ModBelow(a: int, n: int)
    requires 0 <= a < n
    ensures a % n == a
  {
  }

  lemma ModOneOver(a: int, n: int)
    requires n > 0 && n <= a < 2 * n
    ensures a % n == a - n
  {
  }

  /** The cursor after `nextImage`: `(i + 1) % n` when there are images, else unchanged. */
  function NextIndex(i: int, n: nat): (r: int)
    ensures n == 0 ==> r == i
    ensures 0 <= i < n ==> 0 <= r < n && r == if i == n - 1 then 0 else i + 1
  {
    if n > 0 then JsRemOneRound(i + 1, n); JsRem(i + 1, n) else i
  }

  /** The cursor after `prevImage`: `(i - 1 + n) % n` when there are images, else unchanged. */
  function PrevIndex(i: int, n: nat): (r: int)
    ensures n == 0 ==> r == i
    ensures 0 <= i < n ==> 0 <= r < n && r == if i == 0 then n - 1 else i - 1
  {
    if n > 0 then JsRemOneRound(i - 1 + n, n); JsRem(i - 1 + n, n) else i
  }

  /** Each step undoes the other. */
  lemma StepsUndo(i: int, n: nat)
    requires 0 <= i < n
    ensures PrevIndex(NextIndex(i, n), n) == i
    ensures NextIndex(PrevIndex(i, n), n) == i
  {
  }

  /** The cursor after k clicks on "next". */
  function NextSteps(i: int, n: nat, k: nat): int
  {
    if k == 0 then i else NextIndex(NextSteps(i, n, k - 1), n)
  }

  /** The cursor after k clicks on "previous". */
  function PrevSteps(i: int, n: nat, k: nat): int
  {
    if k == 0 then i else PrevIndex(PrevSteps(i, n, k - 1), n)
  }

  /** k forward steps, for k up to n, move the cursor k places with wrap-around. */
  lemma {:induction false} NextStepsValue(i: int, n: nat, k: nat)
    requires 0 <= i < n && k <= n
    ensures NextSteps(i, n, k) == if i + k < n then i + k else i + k - n
  {
    if k > 0 {
      NextStepsValue(i, n, k - 1);
    }
  }

  /** k backward steps, for k up to n, move the cursor k places back with wrap-around. */
  lemma {:induction false} PrevStepsValue(i: int, n: nat, k: nat)
    requires 0 <= i < n && k <= n
    ensures PrevSteps(i, n, k) == if k <= i then i - k else i - k + n
  {
    if k > 0 {
      PrevStepsValue(i, n, k - 1);
    }
  }

  /** n steps in either direction return to the starting image. */
  lemma FullCycle(i: int, n: nat)
    requires 0 <= i < n
    ensures NextSteps(i, n, n) == i && PrevSteps(i, n, n) == i
  {
    NextStepsValue(i, n, n);
    PrevStepsValue(i, n, n);
  }

  /** With no images the cursor never moves, however often either arrow is clicked. */
  lemma {:induction false} NoImagesNoMove(i: int, k: nat)
    ensures NextSteps(i, 0, k) == i && PrevSteps(i, 0, k) == i
  {
    if k > 0 {
      NoImagesNoMove(i, k - 1);
    }
  }

  /** The dot indicator: dot j is highlighted when j is the current index. */
  function DotRow(n: nat, current: int): (d: seq<bool>)
    ensures |d| == n
  {
    seq(n, j => j == current)
  }

  function CountTrue(s: seq<bool>): nat
  {
    if s == [] then 0 else CountTrue(s[..|s| - 1]) + (if s[|s| - 1] then 1 else 0)
  }

  /** Exactly one dot is highlighted when the current index is in range, none otherwise. */
  lemma {:induction false} DotRowCount(n: nat, current: int)
    ensures CountTrue(DotRow(n, current)) == if 0 <= current < n then 1 else 0
  {
    if n > 0 {
      assert DotRow(n, current)[..n - 1] == DotRow(n - 1, current);
      DotRowCount(n - 1, current);
    }
  }

  /** The cursor invariant: in range when there are images, still 0 when there are none. */
  predicate InRange(i: int, n: nat)
  {
    if n > 0 then 0 <= i < n else i == 0
  }

  /** One rendered project card and its `currentImageIndex` state. */
  class ProjectCard {
    const project: Project
    const images: seq<string>
    var currentImageIndex: int

    ghost predicate Valid()
      reads this
    {
      images == Images(project.image) && InRange(currentImageIndex, |images|)
    }

    constructor (project: Project)
      ensures Valid()
      ensures this.project == project && currentImageIndex == 0
    {
      this.project := project;
      images := Images(project.image);
      currentImageIndex := 0;
    }

    /** The "next" button's click handler. */
    method NextImage()
      requires Valid()
      modifies this
      ensures Valid()
      ensures currentImageIndex == NextIndex(old(currentImageIndex), |images|)
    {
      if |images| > 0 {
        currentImageIndex := JsRem(currentImageIndex + 1, |images|);
      }
    }

    /** The "previous" button's click handler. */
    method PrevImage()
      requires Valid()
      modifies this
      ensures Valid()
      ensures currentImageIndex == PrevIndex(old(currentImageIndex), |images|)
    {
      if |images| > 0 {
        currentImageIndex := JsRem(currentImageIndex - 1 + |images|, |images|);
      }
    }

    /** `images.length > 1`: whether the arrows and the dots are rendered. */
    function HasMultipleImages(): bool
      reads this
    {
      |images| > 1
    }

    /** `images[currentImageIndex]`, the slide on display: always one of the images. */
    function CurrentImage(): (src: string)
      reads this
      requires Valid() && |images| > 0
      ensures src in images
    {
      images[currentImageIndex]
    }

    /** The dot indicator, present only with several images; exactly the dot at the
        current index is highlighted. */
    function Dots(): (d: seq<bool>)
      reads this
      requires Valid()
      ensures d != [] <==> HasMultipleImages()
      ensures d != [] ==> |d| == |images| && CountTrue(d) == 1
      ensures forall j :: 0 <= j < |d| ==> (d[j] <==> j == currentImageIndex)
    {
      if HasMultipleImages() then
        DotRowCount(|images|, currentImageIndex);
        DotRow(|images|, currentImageIndex)
      else []
    }

    /** `projectUrl`: the stored slug when it is non-empty, otherwise the slug derived from
        the title, which then holds no whitespace; the same path the listing page links to. */
    function ProjectUrl(): (url: string)
      reads this
      ensures |url| >= |ProjectsPrefix| && url[..|ProjectsPrefix|] == ProjectsPrefix
      ensures project.slug.Some? && project.slug.value != "" ==>
                url[|ProjectsPrefix|..] == project.slug.value
      ensures project.slug.None? || project.slug.value == "" ==>
                url[|ProjectsPrefix|..] == DerivedSlug(project.title) && NoSpace(url[|ProjectsPrefix|..])
      ensures url == ProjectPath(project)
    {
      ProjectPathSegment(project, project);
      ProjectsPrefix + Slug(project)
    }

    /** The tag row under the description: `project.tags.slice(0, 3)` and, with more than
        three tags, a `+N` badge for the rest; the same row the listing page renders. */
    function Tags(): (row: TagRow)
      reads this
      ensures row.shown == project.tags[..if |project.tags| < 3 then |project.tags| else 3]
      ensures row.more.Some? <==> |project.tags| > 3
      ensures row.more.Some? ==> row.more.value == |project.tags| - 3
      ensures row == TagDisplay(project.tags)
    {
      TagDisplay(project.tags)
    }
  }
}
