/** The slideshow of the home page's testimonials section: four
    testimonials. */
module TestimonialsSection {
  import opened Carousel

  /** A testimonial; the quoted text and its date are left to the display. */
  datatype Testimonial = Testimonial(id: nat, name: string, service: string, rating: int)

  const Testimonials: seq<Testimonial> := [
    Testimonial(1, "Sophie M.", "Volume Russe", 5),
    Testimonial(2, "Marie L.", "Extension Classique", 5),
    Testimonial(3, "Camille R.", "Mega Volume", 5),
    Testimonial(4, "Léa B.", "Hybride", 5)]

  /** The section's slideshow, on the first testimonial. */
  method NewTestimonialSlideshow() returns (s: Slideshow)
    ensures fresh(s) && s.Valid() && s.count == |Testimonials| && s.activeIndex == 0
  {
    s := new Slideshow(|Testimonials|);
  }

  /** `nextTestimonial` four times shows the same testimonial again, and
      `nextTestimonial` after `prevTestimonial` too. */
  lemma TestimonialsCycle(i: int)
    requires 0 <= i < |Testimonials|
    ensures |Testimonials| == 4
    ensures NextTimes(i, |Testimonials|, 4) == i
    ensures NextIndex(PrevIndex(i, |Testimonials|), |Testimonials|) == i
  {
    FullTurn(i, 4);
  }
}
