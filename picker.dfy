/** What the image picker hands back when the user finishes picking. */
module Picker {
  import opened Wrappers
  import opened Books

  /** The keys of the picker's result dictionary that the app may receive. */
  datatype InfoKey = EditedImageKey | OriginalImageKey | MediaTypeKey

  /** A value of the result dictionary: an image, or anything else. */
  datatype InfoValue = ImageValue(image: Image) | OtherValue

  type PickerInfo = map<InfoKey, InfoValue>

  /** The edited image, when the result holds one under the edited-image key. */
  function EditedImage(info: PickerInfo): (r: Option<Image>)
    ensures r.Some? <==> EditedImageKey in info && info[EditedImageKey].ImageValue?
    ensures r.Some? ==> info[EditedImageKey] == ImageValue(r.value)
  {
    if EditedImageKey in info then
      match info[EditedImageKey]
      case ImageValue(image) => Some(image)
      case OtherValue => None
    else None
  }

  /** An unedited original alone is never taken. */
  lemma OriginalImageIgnored(info: PickerInfo, image: Image)
    requires EditedImageKey !in info
    ensures EditedImage(info[OriginalImageKey := ImageValue(image)]) == None
  {
  }
}
