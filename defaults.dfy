/**
 * Default substitution in the page texts of app.js: a field read with `field || 'default'`
 * (and every `setText`, which adds `|| ''`) shows the default when the field is absent or
 * empty and the field itself otherwise. A missing parent object (`data.meta?.title` with no
 * `meta`) reads as all of its fields absent.
 */
module Defaults {
  import opened Wrappers
  import Decimal

  /** JavaScript truthiness of an optional string: present and not empty. */
  predicate Truthy(v: Option<string>) {
    v.Some? && v.value != ""
  }

  /** `v || fallback`. */
  function OrDefault(v: Option<string>, fallback: string): (r: string)
    ensures Truthy(v) ==> r == v.value
    ensures !Truthy(v) ==> r == fallback
  {
    if Truthy(v) then v.value else fallback
  }

  /** The text fields of the content document that the page shows through a default. */
  datatype Content = Content(
    metaTitle: Option<string>, metaDescription: Option<string>, brand: Option<string>,
    heroHeadline: Option<string>, heroSubtext: Option<string>,
    cta1Label: Option<string>, cta1Href: Option<string>,
    cta2Label: Option<string>, cta2Href: Option<string>,
    aboutText: Option<string>,
    offerText: Option<string>, offerCtaLabel: Option<string>, offerCtaHref: Option<string>,
    ctaHeadline: Option<string>, ctaAddress: Option<string>, ctaPhone: Option<string>,
    ctaEmail: Option<string>, ctaButtonLabel: Option<string>, ctaButtonHref: Option<string>)

  /** What the page shows: element texts, link targets, the title and the meta description. */
  datatype Page = Page(
    title: string, metaDescription: string, siteLogo: string, footerCopy: string,
    heroHeadline: string, heroSubtext: string,
    heroCta1Text: string, heroCta1Href: string,
    heroCta2Text: string, heroCta2Href: string,
    navCtaText: string, navCtaHref: string,
    aboutText: string,
    offerText: string, offerCtaText: string, offerCtaHref: string,
    ctaHeadline: string, ctaAddress: string, ctaPhone: string, ctaEmail: string,
    ctaButtonText: string, ctaButtonHref: string)

  /** `setText(el, text)`: an absent or empty text empties the element. */
  function SetText(text: Option<string>): (shown: string)
    ensures Truthy(text) ==> shown == text.value
    ensures shown == "" <==> !Truthy(text)
  {
    OrDefault(text, "")
  }

  function FooterCopy(year: nat, brand: string): string {
    "© " + Decimal.NatToString(year) + " " + brand + " · All rights reserved."
  }

  /** The texts of the rendering pass; `year` is the clock's current year. */
  function RenderPage(c: Content, year: nat): (p: Page)
    ensures p.title != "" && p.metaDescription != "" && p.siteLogo != ""
    ensures p.heroCta1Text != "" && p.heroCta1Href != "" && p.heroCta2Text != "" && p.heroCta2Href != ""
    ensures p.offerText != "" && p.offerCtaText != "" && p.offerCtaHref != ""
    ensures p.ctaButtonText != "" && p.ctaButtonHref != ""
    ensures p.footerCopy == FooterCopy(year, p.siteLogo)
    ensures p.navCtaText == p.heroCta1Text && p.navCtaHref == p.heroCta1Href
  {
    var brand := OrDefault(c.brand, "[Gym Name]");
    Page(
      OrDefault(c.metaTitle, "Gym Website"),
      OrDefault(c.metaDescription, "Premium gym website"),
      SetText(Some(brand)),
      SetText(Some(FooterCopy(year, brand))),
      SetText(c.heroHeadline),
      SetText(c.heroSubtext),
      OrDefault(c.cta1Label, "Start Free Trial"), OrDefault(c.cta1Href, "#pricing"),
      OrDefault(c.cta2Label, "Book a Session"), OrDefault(c.cta2Href, "#contact"),
      OrDefault(c.cta1Label, "Start Free Trial"), OrDefault(c.cta1Href, "#pricing"),
      SetText(c.aboutText),
      SetText(Some(OrDefault(c.offerText, "Join Now & Get 20% OFF Your First 3 Months!"))),
      OrDefault(c.offerCtaLabel, "Claim Offer"), OrDefault(c.offerCtaHref, "#contact"),
      SetText(c.ctaHeadline),
      SetText(Some("\U{1F4CD} Address: " + OrDefault(c.ctaAddress, ""))),
      SetText(Some("\U{1F4DE} Phone: " + OrDefault(c.ctaPhone, ""))),
      SetText(Some("\U{1F4E7} Email: " + OrDefault(c.ctaEmail, ""))),
      OrDefault(c.ctaButtonLabel, "Book Your Free Trial"), OrDefault(c.ctaButtonHref, "#"))
  }

  const Blank := Content(None, None, None, None, None, None, None, None, None, None,
                         None, None, None, None, None, None, None, None, None)

  /** Meta, hero and about texts that are filled in are shown verbatim. */
  lemma HeadShownVerbatim(c: Content, year: nat)
    requires Truthy(c.metaTitle) && Truthy(c.metaDescription) && Truthy(c.brand)
    requires Truthy(c.heroHeadline) && Truthy(c.heroSubtext) && Truthy(c.aboutText)
    requires Truthy(c.cta1Label) && Truthy(c.cta1Href) && Truthy(c.cta2Label) && Truthy(c.cta2Href)
    ensures var p := RenderPage(c, year);
      p.title == c.metaTitle.value && p.metaDescription == c.metaDescription.value &&
      p.siteLogo == c.brand.value && p.footerCopy == FooterCopy(year, c.brand.value) &&
      p.heroHeadline == c.heroHeadline.value && p.heroSubtext == c.heroSubtext.value &&
      p.heroCta1Text == c.cta1Label.value && p.heroCta1Href == c.cta1Href.value &&
      p.heroCta2Text == c.cta2Label.value && p.heroCta2Href == c.cta2Href.value &&
      p.navCtaText == c.cta1Label.value && p.navCtaHref == c.cta1Href.value &&
      p.aboutText == c.aboutText.value
  {
  }

  /** Without meta, hero and about fields the literal defaults appear, and setText-only elements are emptied. */
  lemma HeadBlankDefaults(year: nat)
    ensures var p := RenderPage(Blank, year);
      p.title == "Gym Website" && p.metaDescription == "Premium gym website" &&
      p.siteLogo == "[Gym Name]" && p.footerCopy == FooterCopy(year, "[Gym Name]") &&
      p.heroHeadline == "" && p.heroSubtext == "" &&
      p.heroCta1Text == "Start Free Trial" && p.heroCta1Href == "#pricing" &&
      p.heroCta2Text == "Book a Session" && p.heroCta2Href == "#contact" &&
      p.navCtaText == "Start Free Trial" && p.navCtaHref == "#pricing" &&
      p.aboutText == ""
  {
  }

  /** Offer texts that are filled in are shown verbatim. */
  lemma OfferShownVerbatim(c: Content, year: nat)
    requires Truthy(c.offerText) && Truthy(c.offerCtaLabel) && Truthy(c.offerCtaHref)
    ensures var p := RenderPage(c, year);
      p.offerText == c.offerText.value && p.offerCtaText == c.offerCtaLabel.value &&
      p.offerCtaHref == c.offerCtaHref.value
  {
  }

  lemma OfferBlankDefaults(year: nat)
    ensures var p := RenderPage(Blank, year);
      p.offerText == "Join Now & Get 20% OFF Your First 3 Months!" &&
      p.offerCtaText == "Claim Offer" && p.offerCtaHref == "#contact"
  {
  }

  /** Footer call-to-action texts that are filled in are shown verbatim after their labels. */
  lemma FooterShownVerbatim(c: Content, year: nat)
    requires Truthy(c.ctaHeadline) && Truthy(c.ctaAddress) && Truthy(c.ctaPhone) && Truthy(c.ctaEmail)
    requires Truthy(c.ctaButtonLabel) && Truthy(c.ctaButtonHref)
    ensures var p := RenderPage(c, year);
      p.ctaHeadline == c.ctaHeadline.value &&
      p.ctaAddress == "\U{1F4CD} Address: " + c.ctaAddress.value &&
      p.ctaPhone == "\U{1F4DE} Phone: " + c.ctaPhone.value &&
      p.ctaEmail == "\U{1F4E7} Email: " + c.ctaEmail.value &&
      p.ctaButtonText == c.ctaButtonLabel.value && p.ctaButtonHref == c.ctaButtonHref.value
  {
  }

  lemma FooterBlankDefaults(year: nat)
    ensures var p := RenderPage(Blank, year);
      p.ctaHeadline == "" && p.ctaAddress == "\U{1F4CD} Address: " &&
      p.ctaPhone == "\U{1F4DE} Phone: " && p.ctaEmail == "\U{1F4E7} Email: " &&
      p.ctaButtonText == "Book Your Free Trial" && p.ctaButtonHref == "#"
  {
  }

  /**
   * Field by field, for any document: each element shows its field when that is filled in and
   * its literal default otherwise, independently of the other fields.
   */
  lemma EachFieldDefaultsAlone(c: Content, year: nat)
    ensures var p := RenderPage(c, year);
      p.title == OrDefault(c.metaTitle, "Gym Website") &&
      p.metaDescription == OrDefault(c.metaDescription, "Premium gym website") &&
      p.siteLogo == OrDefault(c.brand, "[Gym Name]") &&
      p.heroHeadline == OrDefault(c.heroHeadline, "") && p.heroSubtext == OrDefault(c.heroSubtext, "") &&
      p.heroCta1Text == OrDefault(c.cta1Label, "Start Free Trial") &&
      p.heroCta1Href == OrDefault(c.cta1Href, "#pricing") &&
      p.heroCta2Text == OrDefault(c.cta2Label, "Book a Session") &&
      p.heroCta2Href == OrDefault(c.cta2Href, "#contact") &&
      p.aboutText == OrDefault(c.aboutText, "") &&
      p.offerText == OrDefault(c.offerText, "Join Now & Get 20% OFF Your First 3 Months!") &&
      p.offerCtaText == OrDefault(c.offerCtaLabel, "Claim Offer") &&
      p.offerCtaHref == OrDefault(c.offerCtaHref, "#contact") &&
      p.ctaHeadline == OrDefault(c.ctaHeadline, "") &&
      p.ctaAddress == "\U{1F4CD} Address: " + OrDefault(c.ctaAddress, "") &&
      p.ctaPhone == "\U{1F4DE} Phone: " + OrDefault(c.ctaPhone, "") &&
      p.ctaEmail == "\U{1F4E7} Email: " + OrDefault(c.ctaEmail, "") &&
      p.ctaButtonText == OrDefault(c.ctaButtonLabel, "Book Your Free Trial") &&
      p.ctaButtonHref == OrDefault(c.ctaButtonHref, "#")
  {
  }

  /** The hero media: a video wins over an image; with neither the placeholder stays. */
  datatype HeroMedia = Video(src: string) | Image(src: string) | Unchanged

  function ChooseHeroMedia(video: Option<string>, image: Option<string>): (m: HeroMedia)
    ensures m.Video? <==> Truthy(video)
    ensures m.Image? <==> !Truthy(video) && Truthy(image)
    ensures m.Video? ==> m.src == video.value
    ensures m.Image? ==> m.src == image.value
  {
    if Truthy(video) then Video(video.value)
    else if Truthy(image) then Image(image.value)
    else Unchanged
  }
}
