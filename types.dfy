/** The two records of the program, with the field defaults of their dataclasses. */
module Types {
  import opened YamlValue

  /** One row of the "Role Variables" table. The positional order of the
      fields is the dataclass's: name, required, default, description, value,
      example (there `m_name`, `m_required`, `m_default`, `m_description`,
      `m_value`, `m_example`). `default` holds `str()` of the value the program stores there,
      since `str()` is all the program ever does with it. */
  datatype Varible = Varible(
    name: string := "",
    required: string := "No",
    default: string := "-",
    description: string := "Please fill the description.",
    value: string := "-",
    example: string := "Please fill the example.")

  /** One supported platform. Python does not enforce the `str` annotations,
      so both fields hold whatever the metadata gave: `os` is the platform's
      `name` (None when absent), `version` one element of its `versions`. */
  datatype SupportPlatform = SupportPlatform(os: Yaml := YStr(""), version: Yaml := YStr("ALL"))

  /** A variable built from name, required and default gets the defaults of
      the three trailing fields. */
  lemma VaribleDefaults(name: string, required: string, default: string)
    ensures var v := Varible(name, required, default);
      && v.name == name && v.required == required && v.default == default
      && v.description == "Please fill the description."
      && v.value == "-"
      && v.example == "Please fill the example."
  {
  }

  /** `Varible()` is the empty name, not required, default "-". */
  lemma VaribleFieldDefaults()
    ensures Varible().name == "" && Varible().required == "No" && Varible().default == "-"
  {
  }

  /** `SupportPlatform()` is the empty OS name on every version ("ALL"). */
  lemma PlatformDefaults()
    ensures SupportPlatform() == SupportPlatform(YStr(""), YStr("ALL"))
    ensures SupportPlatform().os == YStr("") && SupportPlatform().version == YStr("ALL")
  {
  }
}
