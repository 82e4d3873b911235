/**
 * Names and links of the sticker path (bin.js `handleSticker` and
 * `postConvert`): the file name the video is sent under, the clean-up of the
 * file name Telegram reports back, and the download link and message built
 * from it.
 */
module Naming {
  import opened Common
  import Uri

  predicate EndsWith(s: string, suffix: string)
  {
    |suffix| <= |s| && s[|s| - |suffix|..] == suffix
  }

  const BaseName: string := "animated_sticker"
  const VideoExtension: string := ".mp4"

  /**
   * The `fileName` option of the video send: the emoji's name from the
   * foreign `emoji.getName` followed by `_animated_sticker.mp4` when the
   * sticker has a (truthy) emoji, else `animated_sticker.mp4`. A lookup miss
   * (`undefined`) is concatenated as the text "undefined".
   */
  function OutgoingFileName(emoji: Option<string>, getName: string -> Option<string>): (r: string)
    ensures EndsWith(r, BaseName + VideoExtension)
    ensures r == BaseName + VideoExtension <==> !Truthy(emoji)
    ensures Truthy(emoji) ==>
      EndsWith(r, "_" + BaseName + VideoExtension)
      && r[..|r| - |"_" + BaseName + VideoExtension|] == JsConcatForm(getName(emoji.value))
  {
    (if Truthy(emoji) then JsConcatForm(getName(emoji.value)) + "_" + BaseName else BaseName) + VideoExtension
  }

  /** `if (fName.endsWith('_')) fName = fName.replace(/_$/, '')`. */
  function StripTrailingUnderscore(s: string): (r: string)
    ensures EndsWith(s, "_") ==> |r| == |s| - 1 && r + "_" == s
    ensures !EndsWith(s, "_") ==> r == s
  {
    if EndsWith(s, "_") then
      assert s[..|s| - 1] + "_" == s;
      ReplaceFinalUnderscore(s)
    else s
  }

  /**
   * `s.replace(/_$/, '')`: the first position at which `_$` matches, searched
   * from `from` on, is cut out; without a match the string is unchanged.
   * Without the `m` flag, `$` matches only at the end of the input.
   */
  function ReplaceFirstMatch(s: string, from: nat): (r: string)
    requires from <= |s|
    ensures EndsWith(s, "_") && from < |s| ==> r == s[..|s| - 1]
    ensures !EndsWith(s, "_") || from == |s| ==> r == s
    decreases |s| - from
  {
    if from == |s| then s
    else if s[from] == '_' && from + 1 == |s| then
      assert s[from + 1..] == [];
      s[..from] + s[from + 1..]
    else ReplaceFirstMatch(s, from + 1)
  }

  /** The regex replacement removes exactly the one final `_`, and nothing when there is none. */
  function ReplaceFinalUnderscore(s: string): (r: string)
    ensures EndsWith(s, "_") ==> r == s[..|s| - 1]
    ensures !EndsWith(s, "_") ==> r == s
  {
    ReplaceFirstMatch(s, 0)
  }

  lemma StripExamples()
    ensures StripTrailingUnderscore("clip_") == "clip"
    ensures StripTrailingUnderscore("clip__") == "clip_"
    ensures StripTrailingUnderscore("clip") == "clip"
  {
    assert EndsWith("clip_", "_") && EndsWith("clip__", "_") && !EndsWith("clip", "_");
  }

  /** The name as it appears in the link: one trailing `_` stripped, then `encodeURI`. */
  function LinkName(fName: string): (r: string)
    ensures ' ' !in r
    ensures Uri.Unescape(r) == Some(Uri.Utf8(StripTrailingUnderscore(fName)))
  {
    Uri.UnescapeEncodeURI(StripTrailingUnderscore(fName));
    Uri.EncodeURI(StripTrailingUnderscore(fName))
  }

  const LinkQuery: string := "?dl=1"

  /** `${mainURL}/${id}/${fName}?dl=1`. */
  function DownloadLink(mainURL: string, id: string, fName: string): string
  {
    mainURL + "/" + id + "/" + LinkName(fName) + LinkQuery
  }

  /**
   * The link splits back into its parts: the configured base, the file id
   * of the video send, a path segment whose percent-decoding is the UTF-8 of
   * the stripped name, and the `dl=1` query.
   */
  lemma DownloadLinkParts(mainURL: string, id: string, fName: string)
    ensures var link := DownloadLink(mainURL, id, fName);
      var head := mainURL + "/" + id + "/";
      && |link| == |head| + |LinkName(fName)| + |LinkQuery|
      && link[..|head|] == head
      && EndsWith(link, LinkQuery)
      && var segment := link[|head|..|link| - |LinkQuery|];
      && ' ' !in segment
      && Uri.Unescape(segment) == Some(Uri.Utf8(StripTrailingUnderscore(fName)))
  {
    var link := DownloadLink(mainURL, id, fName);
    var head := mainURL + "/" + id + "/";
    assert link == head + LinkName(fName) + LinkQuery;
    assert link[|head|..|link| - |LinkQuery|] == LinkName(fName);
  }

  const LinkIntro: string := "Here's the link to download the video: "
  const DonationNote: string := "\n\nDonate to keep this bot up! https://paypal.me/mkg20001"

  /** The follow-up message text of `postConvert`. */
  function LinkMessage(mainURL: string, id: string, fName: string): string
  {
    LinkIntro + DownloadLink(mainURL, id, fName) + DonationNote
  }

  /** The download link sits in the message right after the fixed introduction. */
  lemma LinkInMessage(mainURL: string, id: string, fName: string)
    ensures var text := LinkMessage(mainURL, id, fName);
      var link := DownloadLink(mainURL, id, fName);
      |LinkIntro| + |link| <= |text| && text[|LinkIntro|..|LinkIntro| + |link|] == link
  {
    var text := LinkMessage(mainURL, id, fName);
    var link := DownloadLink(mainURL, id, fName);
    assert text == LinkIntro + link + DonationNote;
    assert text[|LinkIntro|..|LinkIntro| + |link|] == link;
  }
}
