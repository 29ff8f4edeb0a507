/**
 * One card of the catalogue: the image carousel, whose current index is a
 * piece of mutable component state, and the pure choices of what the card
 * shows (type badge, OWNED badge, description, action button).
 */
module ProductCard {
  import opened Wrappers
  import opened Schema

  /** The `images || []` of a product. */
  function ImagesOf(p: Product): (images: seq<string>)
    ensures p.images.None? ==> images == []
    ensures p.images.Some? ==> images == p.images.value
  {
    p.images.GetOr([])
  }

  // ---------------------------------------------------------------------
  // Carousel index arithmetic
  // ---------------------------------------------------------------------

  /** Index after the "next" arrow, over `n` images; no move when there are none. */
  function NextIndex(i: nat, n: nat): (j: nat)
    ensures n == 0 ==> j == i
    ensures i < n ==> j < n
  {
    if n > 0 then (i + 1) % n else i
  }

  /** Index after the "previous" arrow, over `n` images; no move when there are none. */
  function PrevIndex(i: nat, n: nat): (j: nat)
    ensures n == 0 ==> j == i
    ensures i < n ==> j < n
  {
    if n > 0 then (i - 1 + n) % n else i
  }

  /** From an index in range, "next" moves one place on and wraps from the last image to the first. */
  lemma NextIndexStep(i: nat, n: nat)
    requires i < n
    ensures NextIndex(i, n) == if i + 1 < n then i + 1 else 0
  {
    if i + 1 == n {
      assert (i + 1) % n == 0;
    } else {
      assert (i + 1) % n == i + 1;
    }
  }

  /** From an index in range, "previous" moves one place back and wraps from the first image to the last. */
  lemma PrevIndexStep(i: nat, n: nat)
    requires i < n
    ensures PrevIndex(i, n) == if i > 0 then i - 1 else n - 1
  {
    if i > 0 {
      ModWrapOnce(i - 1 + n, n);
    } else {
      assert (n - 1) % n == n - 1;
    }
  }

  /** A value between `n` and `2n` is brought into range by one subtraction of `n`. */
  lemma ModWrapOnce(x: int, n: int)
    requires 0 < n <= x < 2 * n
    ensures x % n == x - n
  {
  }

  /** Stepping forward then back returns to the start. */
  lemma PrevAfterNext(i: nat, n: nat)
    requires i < n
    ensures PrevIndex(NextIndex(i, n), n) == i
  {
    NextIndexStep(i, n);
    PrevIndexStep(NextIndex(i, n), n);
  }

  /** Stepping back then forward returns to the start. */
  lemma NextAfterPrev(i: nat, n: nat)
    requires i < n
    ensures NextIndex(PrevIndex(i, n), n) == i
  {
    PrevIndexStep(i, n);
    NextIndexStep(PrevIndex(i, n), n);
  }

  /** The last image is followed by the first, and the first preceded by the last. */
  lemma WrapAround(n: nat)
    requires n > 0
    ensures NextIndex(n - 1, n) == 0
    ensures PrevIndex(0, n) == n - 1
  {
    NextIndexStep(n - 1, n);
    PrevIndexStep(0, n);
  }

  /** The index after `k` presses of the "next" arrow. */
  function NextSteps(i: nat, n: nat, k: nat): (j: nat)
    ensures i < n ==> j < n
  {
    if k == 0 then i else NextIndex(NextSteps(i, n, k - 1), n)
  }

  /** Up to `n` forward steps from `i` land on `i + k`, wrapped past the last image at most once. */
  lemma {:induction false} NextStepsWrapOnce(i: nat, n: nat, k: nat)
    requires i < n && k <= n
    ensures NextSteps(i, n, k) == if i + k < n then i + k else i + k - n
  {
    if k > 0 {
      NextStepsWrapOnce(i, n, k - 1);
      NextIndexStep(NextSteps(i, n, k - 1), n);
    }
  }

  /** As many forward steps as there are images bring the carousel back to where it was. */
  lemma FullCycle(i: nat, n: nat)
    requires i < n
    ensures NextSteps(i, n, n) == i
  {
    NextStepsWrapOnce(i, n, n);
  }

  // ---------------------------------------------------------------------
  // Carousel state
  // ---------------------------------------------------------------------

  /** The `currentImageIndex` state cell of one card, over that card's images. */
  class ImageCarousel {
    const images: seq<string>
    var currentImageIndex: nat

    /** The index always names an image; with no images it stays at 0. */
    ghost predicate Valid()
      reads this
    {
      if |images| == 0 then currentImageIndex == 0 else currentImageIndex < |images|
    }

    /** Whether the card has any image to show. */
    function HasImages(): (has: bool)
      reads this
      ensures has <==> images != []
    {
      |images| > 0
    }

    /** The card mounts with the product's images (none when null) and index 0. */
    constructor (p: Product)
      ensures images == ImagesOf(p)
      ensures currentImageIndex == 0
      ensures Valid()
    {
      images := ImagesOf(p);
      currentImageIndex := 0;
    }

    /** The "next" arrow. */
    method NextImage()
      requires Valid()
      modifies this
      ensures Valid()
      ensures currentImageIndex == NextIndex(old(currentImageIndex), |images|)
    {
      if HasImages() {
        currentImageIndex := (currentImageIndex + 1) % |images|;
      }
    }

    /** The "previous" arrow. */
    method PrevImage()
      requires Valid()
      modifies this
      ensures Valid()
      ensures currentImageIndex == PrevIndex(old(currentImageIndex), |images|)
    {
      if HasImages() {
        currentImageIndex := (currentImageIndex - 1 + |images|) % |images|;
      }
    }

    /** A click on the indicator dot of image `k`; the dots are one per image. */
    method SelectImage(k: nat)
      requires Valid()
      requires k < |images|
      modifies this
      ensures Valid()
      ensures currentImageIndex == k
    {
      currentImageIndex := k;
    }

    /** The image on display: always an image of the product when there is one. */
    function CurrentImage(): (src: Option<string>)
      reads this
      requires Valid()
      ensures src.Some? <==> HasImages()
      ensures src.Some? ==> src.value in images
    {
      if HasImages() then Some(images[currentImageIndex]) else None
    }

    /** The arrows and dots are drawn only when there is more than one image. */
    function ShowsNavigation(): (shown: bool)
      reads this
      ensures shown ==> HasImages()
      ensures shown <==> |images| >= 2
    {
      |images| > 1
    }
  }

  /**
   * Whenever the arrows are hidden (at most one image), neither arrow could
   * have moved the index anyway, so hiding them takes nothing away.
   */
  lemma HiddenArrowsLoseNothing(c: ImageCarousel)
    requires c.Valid() && !c.ShowsNavigation()
    ensures NextIndex(c.currentImageIndex, |c.images|) == c.currentImageIndex
    ensures PrevIndex(c.currentImageIndex, |c.images|) == c.currentImageIndex
  {
    if |c.images| == 1 {
      assert c.currentImageIndex == 0;
    }
  }

  // ---------------------------------------------------------------------
  // What the card shows
  // ---------------------------------------------------------------------

  /** Content of the top-left badge: FREE, or the price (possibly null). */
  datatype TypeBadge = FreeBadge | PriceBadge(price: Option<real>)

  function TypeBadgeContent(p: Product): (b: TypeBadge)
    ensures b.FreeBadge? <==> p.productType.Free?
    ensures b.PriceBadge? ==> b.price == p.price
  {
    if p.productType.Free? then FreeBadge else PriceBadge(p.price)
  }

  /** Style variant of the type badge. */
  function TypeBadgeVariant(t: ProductType): (v: string)
    ensures v == "secondary" <==> t.Free?
    ensures v == "default" <==> t.Paid?
  {
    if t.Free? then "secondary" else "default"
  }

  /** Caption of the action button: owning wins over the product type. */
  function ActionLabel(userHasAccess: bool, t: ProductType): (caption: string)
    ensures caption == "Download" <==> userHasAccess
    ensures caption == "Get Free" <==> !userHasAccess && t.Free?
    ensures caption == "Request" <==> !userHasAccess && t.Paid?
  {
    if userHasAccess then "Download" else if t.Free? then "Get Free" else "Request"
  }

  /**
   * Style variant of the action button. The source chooses it by a separate
   * conditional; it follows the same three-way split as the caption.
   */
  function ActionVariant(userHasAccess: bool, t: ProductType): (v: string)
    ensures v == "download" <==> ActionLabel(userHasAccess, t) == "Download"
    ensures v == "neon" <==> ActionLabel(userHasAccess, t) == "Get Free"
    ensures v == "gold" <==> ActionLabel(userHasAccess, t) == "Request"
  {
    if userHasAccess then "download" else if t.Free? then "neon" else "gold"
  }

  /** The button's caption and its style split the cases the same way. */
  lemma LabelAndVariantAgree(a1: bool, t1: ProductType, a2: bool, t2: ProductType)
    ensures ActionLabel(a1, t1) == ActionLabel(a2, t2) <==> ActionVariant(a1, t1) == ActionVariant(a2, t2)
  {
  }

  /** Everything on a card that depends on the product and the ownership flag. */
  datatype CardView = CardView(
    typeBadge: TypeBadge,
    typeBadgeVariant: string,
    ownedBadge: bool,
    showsDescription: bool,
    actionLabel: string,
    actionVariant: string
  )

  /**
   * Renders a card. `userHasAccess` is an optional prop that defaults to false;
   * the description paragraph is drawn only for a non-null, non-empty description.
   */
  function Render(p: Product, userHasAccess: Option<bool>): (card: CardView)
    ensures card.ownedBadge <==> userHasAccess == Some(true)
    ensures card.actionLabel == "Download" <==> card.ownedBadge
    ensures card.typeBadge.FreeBadge? <==> p.productType.Free?
    ensures card.showsDescription <==> p.description.Some? && p.description.value != []
  {
    var owned := userHasAccess.GetOr(false);
    CardView(
      TypeBadgeContent(p),
      TypeBadgeVariant(p.productType),
      owned,
      p.description.Some? && p.description.value != [],
      ActionLabel(owned, p.productType),
      ActionVariant(owned, p.productType))
  }
}
