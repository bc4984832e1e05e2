/** The block style function the editor component hands to the editor: it
    names the CSS class a block is rendered with, from the block's type. */
module BlockStyle {

  /** `blockStyleFn`: code blocks get the class `code-block-style`, every
      other block type no class at all. */
  function BlockStyleFn(blockType: string): (className: string)
    ensures className == "code-block-style" <==> blockType == "code-block"
    ensures className == "" <==> blockType != "code-block"
  {
    if blockType == "code-block" then "code-block-style" else ""
  }
}
