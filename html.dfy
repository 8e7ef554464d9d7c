/**
 * Pages as the automator reads them once an HTML parser has done its work:
 * the forms in document order with their inputs and buttons, each element
 * keeping only the attributes the automator looks at, absent ones as `None`.
 */
module Html {
  import opened Wrappers

  /** An `<input>`: its `name`, `value` and `type` attributes, and the markup of its parent element. */
  datatype Input = Input(name: Option<string>, value: Option<string>, inputType: Option<string>, parentText: string)

  /** A `<button>`: its `name` and `value` attributes. */
  datatype Button = Button(name: Option<string>, value: Option<string>)

  /** A `<form>`: its `action` attribute, then every `<input>` and every `<button>` inside it, in document order. */
  datatype Form = Form(action: Option<string>, inputs: seq<Input>, buttons: seq<Button>)

  /** A parsed page: its forms in document order, and whether it has an `<a href="/account/approve">`. */
  datatype Document = Document(forms: seq<Form>, hasApproveLink: bool)

  /** The HTML parser: a page body to its parsed form. */
  type Parser = string -> Document
}
