# Portfolio project catalog — a Dafny model

The portfolio site lists its projects on one page and shows each project as a card.
This model covers the two parts of the site that hold real logic.

- **The listing page** (`app/projects/page.tsx`).
  - Free-text search is case-insensitive and matches the title, the description or any tag.
  - A category filter accepts several categories at once.
  - Category checkboxes are toggled on and off, and a "clear all" button resets them.
  - The page also derives the checkbox labels, each card's link, its tag row and its
    description text.
- **The project card** (`app/components/ProjectCard.tsx`).
  - The `image` field is normalised into a list of images.
  - A slider cursor moves forward and backward with wrap-around, and both steps do nothing
    when there are no images.
  - The dot indicator highlights the current image.
  - The card also builds its link and its tag row.

Modules, one per concern:

- `Text` (text.dfy) has the string primitives:
  - `toLowerCase`, refined to ASCII;
  - the ECMAScript `\s` class, given by its full code-point list;
  - `includes`;
  - `replace(/\s+/g, "-")`.
- `Seqs` (seqs.dfy) has `Array.prototype.filter` as a pure function, with its facts:
  membership, subsequence, multiplicity, monotonicity and distribution over `+`.
- `Projects` (projects.dfy) has the project record and what both components derive from it:
  the slug, the `/projects/…` path, the tag row and the description fallback.
- `Catalog` (catalog.dfy) has the listing page:
  - the filter predicate and the filter itself;
  - the checkbox labels and `toggleCategory`;
  - the class `ProjectsPage`, whose fields `searchQuery` and `selectedCategories` are the
    page's component state, changed by its handlers.
- `Card` (card.dfy) has the card:
  - image normalisation;
  - JavaScript's truncating `%`, written out;
  - the cursor steps and the dot row;
  - the class `ProjectCard`, whose field `currentImageIndex` is the card's state, with the
    invariant that the cursor stays in range.

## Model

| member | source | states |
|---|---|---|
| `Text.ContainsIff` | app/projects/page.tsx:36-38 | `hay.includes(needle)` holds exactly when the needle occurs at some index of the haystack (both directions) |
| `Text.HyphenateSpaces` | app/projects/page.tsx:160 | the result of replacing whitespace runs has no whitespace, is no longer than the input, and each character is `-` or a character of the input |
| `Text.HyphenateNoSpace` | app/projects/page.tsx:160 | a string without whitespace passes through the replacement unchanged |
| `Text.HyphenateMaximalRun` | app/projects/page.tsx:160 | a maximal whitespace run becomes exactly one `-`, and the text on either side is transformed on its own |
| `Text.HyphenateRunLength` | app/projects/page.tsx:160 | strings that differ only in the length of one whitespace run give the same result |
| `Projects.DerivedSlug` | app/projects/page.tsx:160 | `title.toLowerCase().replace(/\s+/g, "-")` holds no whitespace and is no longer than the title |
| `Projects.Slug` | app/projects/page.tsx:160 | a non-empty stored slug wins; an absent or empty one falls back to the derived slug, which has no whitespace |
| `Projects.DerivedSlugSolidTitle` | app/projects/page.tsx:160 | a title without whitespace is only lower-cased; every other character passes through |
| `Projects.DerivedSlugMaximalRun` | app/projects/page.tsx:160 | each maximal whitespace run in the title becomes a single `-` in the slug |
| `Projects.DerivedSlugRunLength` | app/projects/page.tsx:160 | titles differing only in whitespace-run lengths get the same slug |
| `Projects.DerivedSlugIdempotent` | app/projects/page.tsx:160 | deriving a slug from a derived slug gives it back unchanged |
| `Projects.ProjectPath` | app/projects/page.tsx:160 | the link is `/projects/` followed by the slug |
| `Projects.ProjectPathSegment` | app/components/ProjectCard.tsx:52 | the segment after `/projects/` is the slug, so two projects share a link exactly when their slugs agree |
| `Projects.TagDisplay` | app/projects/page.tsx:247-258 | shows the first min(3, n) tags; the `+N` badge appears iff n > 3, with N > 0; the shown tags plus N add up to n |
| `Projects.DescriptionText` | app/projects/page.tsx:242 | never empty; a non-empty description wins, then non-empty client feedback, then "No description available." |
| `Catalog.FilterProjects` | app/projects/page.tsx:34-44 | with `Catalog.SearchMatch` and `Catalog.CategoryMatch` as the two tests, the result is a subsequence of the items, in order; a project is in it iff it is an item and satisfies both the search and the category test; each kept project appears as often as in the items, and a dropped one never |
| `Catalog.SearchMatchIff` | app/projects/page.tsx:35-38 | `Catalog.SearchMatch` holds iff the query is empty, or lower(query) occurs in lower(title), in lower(description) when present, or in lower(tag) for some tag |
| `Catalog.FilterShowsAll` | app/projects/page.tsx:34-44 | with an empty query and no category selected, the result is the whole list |
| `Catalog.FilterNoCategory` | app/projects/page.tsx:40-43 | with no category selected, the result is the list filtered by search alone |
| `Catalog.FilterWidenCategories` | app/projects/page.tsx:40-41 | widening a non-empty selection never hides a project: the old result is a subsequence of the new one |
| `Catalog.CategoryOptions` | app/projects/page.tsx:24 | the checkbox labels are the vocabulary minus every "All Categories" entry, order kept, every other label as often as in the vocabulary |
| `Catalog.ProjectsPage.Categories` | app/projects/page.tsx:24 | the page's checkbox labels are the vocabulary minus every "All Categories" entry, in vocabulary order, every other label as often as in the vocabulary |
| `Catalog.ProjectsPage.FilteredProjects` | app/projects/page.tsx:34-44 | the cards shown are a subsequence of the items, holding exactly the items that pass the current query and selection, each as often as in the items |
| `Catalog.Toggled` | app/projects/page.tsx:26-32 | the toggled label is in the result iff it was not in the selection; other labels are unaffected; an absent label is appended; a present label loses every occurrence while the rest keep their order and multiplicities |
| `Catalog.ToggledNoDup` | app/projects/page.tsx:26-32 | toggling keeps a duplicate-free selection duplicate-free |
| `Catalog.ToggleTwice` | app/projects/page.tsx:26-32 | toggling the same label twice gives the same set of labels, and the very same list when the label was absent |
| `Catalog.ToggleOnWidens` | app/projects/page.tsx:26-43 | ticking one more category in a non-empty selection never hides a project |
| `Catalog.ProjectsPage.constructor` | app/projects/page.tsx:18-20 | the page starts with an empty query and no selection, so every project is shown |
| `Catalog.ProjectsPage.SetSearchQuery` | app/projects/page.tsx:79-86 | the search box and its clear button set only the query |
| `Catalog.ProjectsPage.ToggleCategory` | app/projects/page.tsx:118-122 | the selection becomes `Toggled` of the old one, stays duplicate-free, and the checkbox state `IsSelected(c)` (`selectedCategories.includes(category)`) flips |
| `Catalog.ProjectsPage.ClearCategories` | app/projects/page.tsx:137-146 | "Clear all filters" empties the selection, and afterwards only the search narrows the list |
| `Card.Images` | app/components/ProjectCard.tsx:32-34 | a list is returned unchanged, a non-empty single reference becomes a one-element list, and absent or empty becomes the empty list |
| `Card.JsRem` | app/components/ProjectCard.tsx:40 | JavaScript's `%` with a positive divisor: a − r is n times the quotient truncated toward zero, and r lies in [0, n) for a ≥ 0 and in (−n, 0] for a < 0 |
| `Card.NextIndex` | app/components/ProjectCard.tsx:39-41 | with no images the index is unchanged; for an index in range the result stays in range and wraps from the last image to the first |
| `Card.PrevIndex` | app/components/ProjectCard.tsx:47-49 | with no images the index is unchanged; for an index in range the result stays in range and wraps from the first image to the last |
| `Card.StepsUndo` | app/components/ProjectCard.tsx:39-49 | previous undoes next and next undoes previous |
| `Card.NextStepsValue` | app/components/ProjectCard.tsx:36-42 | k ≤ n forward steps move the cursor k places, modulo n |
| `Card.PrevStepsValue` | app/components/ProjectCard.tsx:44-50 | k ≤ n backward steps move the cursor k places back, modulo n |
| `Card.FullCycle` | app/components/ProjectCard.tsx:36-50 | with n images, n steps either way return to the start |
| `Card.NoImagesNoMove` | app/components/ProjectCard.tsx:39-49 | with no images, any number of steps in either direction leaves the cursor unchanged |
| `Card.DotRowCount` | app/components/ProjectCard.tsx:97-101 | in the dot row `Card.DotRow`, exactly one dot is highlighted when the current index is in range, and none otherwise |
| `Card.ProjectCard.constructor` | app/components/ProjectCard.tsx:29-34 | the cursor starts at 0 over the normalised images, which satisfies the range invariant |
| `Card.ProjectCard.NextImage` | app/components/ProjectCard.tsx:36-42 | the cursor becomes `NextIndex` of the old one and the range invariant is kept |
| `Card.ProjectCard.PrevImage` | app/components/ProjectCard.tsx:44-50 | the cursor becomes `PrevIndex` of the old one and the range invariant is kept |
| `Card.ProjectCard.CurrentImage` | app/components/ProjectCard.tsx:70 | `images[currentImageIndex]` is in bounds and is one of the images |
| `Card.ProjectCard.Dots` | app/components/ProjectCard.tsx:78-103 | dots exist iff `HasMultipleImages()` (`images.length > 1`, line 53); then there is one dot per image, and exactly the dot at the current index is highlighted |
| `Card.ProjectCard.Tags` | app/components/ProjectCard.tsx:175-187 | the card shows the first min(3, n) of the project's tags and a `+N` badge exactly when n > 3, with N = n − 3; it is the row the listing page renders |
| `Card.ProjectCard.ProjectUrl` | app/components/ProjectCard.tsx:52 | the link is `/projects/` followed by the stored slug when it is non-empty, otherwise by the slug derived from the title, which holds no whitespace; it is the path the listing page builds |

The card's tag row (app/components/ProjectCard.tsx:175-187) and the page's tag row
(app/projects/page.tsx:247-258) are the same expression. Both use `Projects.TagDisplay`.
The same holds for the link: the page's `href` (app/projects/page.tsx:160) and the card's
`projectUrl` (app/components/ProjectCard.tsx:52) both use `Projects.ProjectPath`.
Three tags are shown before the `+N` badge, on the page and on the card alike.

## Left out

- Rendering is not modelled: JSX markup, Tailwind classes, framer-motion animation parameters
  (including the `index * 0.1` delays, which are floats) and `useInView` are presentation only.
- `next/link`, `next/image` and `usePathname` are framework calls. The model stops at the
  strings handed to them: the path and the image reference.
- `toLowerCase` is modelled for ASCII only ('A'..'Z' to 'a'..'z'). Full Unicode case mapping
  can change a string's length, and that is not captured.
- `\s` is modelled as the ECMAScript WhiteSpace and LineTerminator code points. It follows the
  current Unicode space-separator list and assumes no other.
- The search query is not trimmed, exactly as in the code. Leading or trailing blanks in the
  query take part in the match.
- JavaScript numbers are IEEE doubles. The cursor is modelled as an unbounded integer, which
  agrees with the doubles for every list length a page can hold.
- Each render recomputes `images` from the `project` prop. The model fixes the project for
  the card's lifetime, so an index left over from a prop change is not modelled.
- The listing page's own thumbnail, which passes `project.image` straight to the image
  component, and its platform, featured and rating badges are display only.
- The live-site link on the card is display only.
- The card's description (app/components/ProjectCard.tsx:170) is the same expression as the
  listing page's (app/projects/page.tsx:242). Both are modelled once, by `Projects.DescriptionText`.
- Looking up a project by slug is done by the detail page (app/projects/[slug]/page.tsx),
  which is not part of this model. Note that its lookup (app/projects/[slug]/page.tsx:18)
  compares only the stored `slug`, not the derived one.
- The other pages of the site only render data as markup and are not part of this model.
- The contact form's timer-driven submission and the header's active-link test hold logic
  of their own, outside the listing page and the card, and are out of scope.
- The portfolio data itself is not part of this model. The record is modelled abstractly,
  with the fields the modelled logic reads (`title`, `description`, `tags`, `category`,
  `slug`, `image`, `client.feedback`); `platform`, `featured`, `rating` and `liveUrl` are
  display only and are left out.
