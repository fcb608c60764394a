/** The three summary tiers (`short_summary`, `medium_summary`,
    `long_summary` in AI.py). They run the same pipeline and differ only in
    the fixed instruction handed to the final synthesis call. */
module Tiers {
  import opened Results

  datatype Tier = Short | Medium | Long

  /** The fixed synthesis instruction of each tier, verbatim. */
  function TierPrompt(t: Tier): string {
    match t
    case Short => ShortPrompt
    case Medium => MediumPrompt
    case Long => LongPrompt
  }

  const ShortPrompt: string :=
    "\nCreate an executive-level summary using 7\U{2013}10 concise bullet points.\nFocus on core ideas, insights, and conclusions.\nAvoid repetition and fluff.\n"

  const MediumPrompt: string :=
    "\nWrite a professional and coherent summary of 180\U{2013}250 words.\nMaintain logical flow.\nCover all major concepts, arguments, and conclusions.\n"

  const LongPrompt: string :=
    "\nCreate a detailed, structured summary with clear headings:\n- Introduction\n- Main Sections\n- Key Findings / Arguments\n- Conclusion\n\nExplain ideas clearly and comprehensively.\nAvoid redundancy.\n"

  /** The tier's `summary_type` value in a request. */
  function TierName(t: Tier): string {
    match t
    case Short => "short"
    case Medium => "medium"
    case Long => "long"
  }

  /** The accepted `summary_type` values. */
  const TierNames: seq<string> := ["short", "medium", "long"]

  /** The tier a `summary_type` value names, if any: exactly the three
      accepted names parse, each to the tier that carries it. */
  function ParseTier(name: string): (r: Option<Tier>)
    ensures r.Some? <==> name in TierNames
    ensures r.Some? ==> TierName(r.value) == name
  {
    if name == "short" then Some(Short)
    else if name == "medium" then Some(Medium)
    else if name == "long" then Some(Long)
    else None
  }

  /** Names and tiers are in one-to-one correspondence. */
  lemma ParseTierName(t: Tier)
    ensures ParseTier(TierName(t)) == Some(t)
  {
  }

  /** The three prompts are pairwise distinct, so the synthesis request
      identifies the tier it was made for. */
  lemma TierPromptsDistinct(a: Tier, b: Tier)
    ensures TierPrompt(a) == TierPrompt(b) <==> a == b
  {
    assert |ShortPrompt| == 145;
    assert |MediumPrompt| == 138;
    assert |LongPrompt| == 193;
  }
}
