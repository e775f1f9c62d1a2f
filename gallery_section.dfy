/** The slideshow of the home page's gallery section: four images. */
module GallerySection {
  import opened Carousel

  /** An image of `galleryImages`: its caption and category; the image itself
      is left to the display. */
  datatype GalleryImage = GalleryImage(alt: string, category: string)

  const GalleryImages: seq<GalleryImage> := [
    GalleryImage("Extensions de cils", "Volume"),
    GalleryImage("Extension classique", "Classique"),
    GalleryImage("Volume russe", "Volume"),
    GalleryImage("Extension hybride", "Hybride")]

  /** The section's slideshow, on the first image. */
  method NewGallerySlideshow() returns (s: Slideshow)
    ensures fresh(s) && s.Valid() && s.count == |GalleryImages| && s.activeIndex == 0
  {
    s := new Slideshow(|GalleryImages|);
  }

  /** `nextImage` four times shows the same image again, and so does
      `prevImage` after `nextImage`. */
  lemma GalleryCycles(i: int)
    requires 0 <= i < |GalleryImages|
    ensures |GalleryImages| == 4
    ensures NextTimes(i, |GalleryImages|, 4) == i
    ensures PrevIndex(NextIndex(i, |GalleryImages|), |GalleryImages|) == i
  {
    FullTurn(i, 4);
  }
}
